/**
 What a market maker's dealings come to, told in the terms of the deal: what may be opened, where goods go,
 how long a trader rests, and what a restart makes of a stored position.
 */
module Dealings {
  import opened Economy
  import opened Positions
  import opened Market
  import Evidence

  // ----- opening

  /** A position may be opened, or staged, exactly if it would pass for valid from then on and nothing has been
      done with it yet. */
  lemma OpensIff(p: Position, staging: bool, itemGuid: nat, now: nat)
    ensures OpensWith(p, if staging then Pending else Open, itemGuid, now) <==>
            && itemGuid > 0 && (if staging then p.state.Pending? else p.state.Open?)
            && IsValid(p.(openedAt := now, updatedAt := now, relists := 0)) && p.remaining == p.initial
            && p.realizedCost == p.proceeds == p.fees == p.closedAt == 0 && p.outcome.NoOutcome?
    ensures OpenedAt(p, now) == p.(openedAt := now, updatedAt := now, relists := 0)
  {
  }

  /** Nothing is in the way of a position exactly if its name is free, on the book and in the writes under way; its
      trader has none in that group of that market, or when it is staged none in that market at all; and its goods
      were never bought to be sold again. */
  lemma MayOpenIff(positions: seq<Position>, writes: seq<PendingWrite>, circulation: seq<Circulation>, p: Position,
                   itemGuid: nat, staging: bool)
    ensures MayOpen(positions, writes, circulation, p, itemGuid, staging) <==>
            && (forall q | q in positions :: q.publicId != p.publicId)
            && (forall q | q in positions && q.trader == p.trader && q.market == p.market :: !staging && q.group != p.group)
            && (forall w | w in writes && w.position.Some? :: w.position.value.publicId != p.publicId)
            && (forall c | c in circulation && c.itemGuid == itemGuid :: !c.speculative)
  {
  }

  // ----- where goods go

  /** Every event accounts for its goods, as goods bought to be sold again: what was put up for auction, came back
      or was sold by the auction it went through, and for a split or a merger the other stack too. */
  lemma MovementsTold(p: Position, e: PositionEvent)
    ensures var moves := Movements(p, e);
            && |moves| == (if e.kind in {SplitEvent, MergeEvent} then 2 else 1)
            && (forall c | c in moves :: c.publicId == p.publicId && c.speculative && c.occurredAt == EffectiveTime(p, e.occurredAt))
            && moves[0].itemGuid == e.itemGuid && moves[0].quantity == e.quantity
            && moves[0].auctionId == (if e.kind in {ListedEvent, RelistedEvent, ExpiredEvent, SoldEvent} then e.auctionId else 0)
            && (moves[0].state.ListedItem? <==> e.kind in {ListedEvent, RelistedEvent})
            && (moves[0].state.Delivered? <==> e.kind in {ExpiredEvent, SoldEvent})
            && (moves[0].state.Consumed? <==> e.kind.UsedEvent?) && (moves[0].state.Transformed? <==> e.kind.TransformedEvent?)
            && (moves[0].state.Vendored? <==> e.kind.VendoredEvent?) && (moves[0].state.LostItem? <==> e.kind.LostEvent?)
            && (moves[0].state.Merged? <==> e.kind.MergeEvent?) && (moves[0].state.Acquired? <==> e.kind.SplitEvent?)
            && (|moves| == 2 ==> moves[1].itemGuid == e.replacementItemGuid && moves[1].quantity == e.replacementQuantity &&
                                 moves[1].auctionId == 0 && moves[1].state.Acquired?)
  {
  }

  // ----- rests

  /** The cooldown on record for a trader's interest in a group of a market. */
  function RestOf(cooldowns: seq<Cooldown>, trader: uint32, market: uint32, group: string): Option<Cooldown>
  {
    if cooldowns == [] then None
    else
      var c := cooldowns[|cooldowns| - 1];
      var earlier := RestOf(cooldowns[..|cooldowns| - 1], trader, market, group);
      if earlier.Some? then earlier
      else if c.trader == trader && c.market == market && c.group == group then Some(c) else None
  }

  lemma {:induction false} RestAt(cooldowns: seq<Cooldown>, c: Cooldown)
    ensures var i, rest := CooldownAt(cooldowns, c), RestOf(cooldowns, c.trader, c.market, c.group);
            if i < |cooldowns| then rest == Some(cooldowns[i]) else rest == None
  {
    if cooldowns != [] {
      RestAt(cooldowns[..|cooldowns| - 1], c);
    }
  }

  lemma {:induction false} RestElsewhere(cooldowns: seq<Cooldown>, i: nat, c: Cooldown, trader: uint32, market: uint32, group: string)
    requires i < |cooldowns| && SameCooldown(cooldowns[i], c) && (c.trader != trader || c.market != market || c.group != group)
    ensures RestOf(cooldowns[i := c], trader, market, group) == RestOf(cooldowns, trader, market, group)
  {
    var n := |cooldowns| - 1;
    if i == n {
      assert cooldowns[i := c][..n] == cooldowns[..n];
    } else {
      assert cooldowns[i := c][..n] == cooldowns[..n][i := c];
      RestElsewhere(cooldowns[..n], i, c, trader, market, group);
    }
  }

  lemma RestAppended(cooldowns: seq<Cooldown>, c: Cooldown, trader: uint32, market: uint32, group: string)
    ensures var before := RestOf(cooldowns, trader, market, group);
            RestOf(cooldowns + [c], trader, market, group) ==
            if before.Some? then before else if c.trader == trader && c.market == market && c.group == group then Some(c) else None
  {
    assert (cooldowns + [c])[..|cooldowns|] == cooldowns;
  }

  /** Saving a cooldown replaces the one on record for the same interest, and touches no other. */
  lemma RestSaved(cooldowns: seq<Cooldown>, c: Cooldown, trader: uint32, market: uint32, group: string)
    ensures RestOf(WithCooldown(cooldowns, c), trader, market, group) ==
            if c.trader == trader && c.market == market && c.group == group then Some(c) else RestOf(cooldowns, trader, market, group)
  {
    RestAt(cooldowns, c);
    RestAt(WithCooldown(cooldowns, c), c);
    var i := CooldownAt(cooldowns, c);
    if i < |cooldowns| {
      var after := cooldowns[i := c];
      assert SameCooldown(after[i], c);
      assert forall j | 0 <= j < i :: after[j] == cooldowns[j];
      if c.trader != trader || c.market != market || c.group != group {
        RestElsewhere(cooldowns, i, c, trader, market, group);
      }
    } else {
      RestAppended(cooldowns, c, trader, market, group);
    }
  }

  /** Goods that come back unsold or are lost rest their trader's interest in the group for the time the position
      names, counted from the event and within 64 bits. Nothing else rests anything. */
  lemma EventRests(cooldowns: seq<Cooldown>, p: Position, e: PositionEvent, trader: uint32, market: uint32, group: string)
    ensures var after := CooldownsAfter(cooldowns, p, e);
            if e.kind in {ExpiredEvent, LostEvent} && p.cooldownSeconds > 0
            then
              RestOf(after, trader, market, group) ==
              if p.trader == trader && p.market == market && p.group == group
              then Some(Cooldown(trader, market, group, if e.kind.LostEvent? then LossCause else ExpiredCause,
                                 Min(EffectiveTime(p, e.occurredAt) + p.cooldownSeconds, MAX_UINT64)))
              else RestOf(cooldowns, trader, market, group)
            else after == cooldowns
  {
    hide RestOf, WithCooldown;
    var c := Cooldown(p.trader, p.market, p.group, if e.kind.LostEvent? then LossCause else ExpiredCause,
                      Min(EffectiveTime(p, e.occurredAt) + p.cooldownSeconds, MAX_UINT64));
    RestSaved(cooldowns, c, trader, market, group);
  }

  // ----- restarts

  /** What a restart makes of a stored position. One that is not valid is dropped. One that is staged, or whose goods
      are all found, is taken as it is. Otherwise it is written back: with the goods found and their part of the
      cost, the rest of the cost being realized, or, if none are found, as lost. */
  lemma StoredPositionIs(p: Position, backing: seq<Backing>, now: nat)
    ensures var found := Min(BackingOf(backing, p.publicId), p.remaining);
            var kept, sent, told := KeptOf(p, backing), SentOf(p, backing, now), ReconciliationOf(p, backing);
            if !IsValid(p) then kept == [] && sent == [] && told == []
            else if p.state.Pending? || found == p.remaining then kept == [p] && sent == [] && told == []
            else
              && |sent| == |told| == 1
              && sent[0].remaining == found && sent[0].acquisition + sent[0].realizedCost == p.acquisition + p.realizedCost
              && sent[0].acquisition * p.remaining <= p.acquisition * found < sent[0].acquisition * p.remaining + p.remaining
              && told[0].publicId == p.publicId && told[0].remaining == found && told[0].acquisition == sent[0].acquisition
              && (if found == 0
                  then
                    && kept == [] && told[0].state.Lost?
                    && sent[0] == p.(remaining := 0, acquisition := 0, realizedCost := sent[0].realizedCost, state := PositionState.Lost,
                                     updatedAt := now, closedAt := now, outcome := Loss)
                  else
                    && kept == [sent[0].(updatedAt := p.updatedAt)] && told[0].state == p.state
                    && sent[0] == p.(remaining := found, acquisition := sent[0].acquisition, realizedCost := sent[0].realizedCost,
                                     updatedAt := now))
  {
    hide BackingOf, IsValid;
    if p.remaining > 0 {
      PartWithinCost(p.acquisition, 0, p.remaining);
    } else {
      NothingIsInvalid(p);
    }
  }

  lemma NothingIsInvalid(p: Position)
    requires p.remaining == 0
    ensures !IsValid(p)
  {
  }

  /** A failed write puts its position back as it was sent, and no other position is touched. */
  lemma FailurePutsBack(positions: seq<Position>, p: Position, id: string)
    ensures At(PutBack(positions, p), id) == if id == p.publicId then Some(p) else At(positions, id)
  {
    if id != p.publicId {
      PutBackElsewhere(positions, p, id);
    } else {
      PutBackIsThere(positions, p);
    }
  }

  lemma PutBackIsThere(positions: seq<Position>, p: Position)
    ensures At(PutBack(positions, p), p.publicId) == Some(p)
  {
    var i, after := PositionIndex(positions, p.publicId), PutBack(positions, p);
    assert after[i].publicId == p.publicId;
    assert forall j | 0 <= j < i :: after[j] == positions[j];
  }

  // ----- evidence

  /** Taking in an observation adds it, in place of the earlier one of the same auction from the same source if there
      is one, and keeps every other. */
  lemma ObservationTaken(evidence: seq<Evidence.Observation>, o: Evidence.Observation, x: Evidence.Observation)
    ensures var after := WithObservation(evidence, o);
            && o in after
            && (x in evidence && (o.auctionId == 0 || !OfAuction(x, o)) ==> x in after)
            && (|after| == |evidence| <==> o.auctionId > 0 && exists y | y in evidence :: OfAuction(y, o))
            && |evidence| <= |after| <= |evidence| + 1
  {
    hide ObservedAt;
    var i, after := ObservedAt(evidence, o), WithObservation(evidence, o);
    assert after[i] == o;
    if x in evidence {
      var k :| 0 <= k < |evidence| && evidence[k] == x;
      assert k != i ==> after[k] == x;
    }
    if i < |evidence| {
      assert evidence[i] in evidence && OfAuction(evidence[i], o);
    } else if o.auctionId > 0 {
      assert forall k | 0 <= k < |evidence| :: SameAuction(evidence[k], o) <==> OfAuction(evidence[k], o);
    }
  }

  /** An observation is already known exactly if the first one of the same auction from the same source tells the
      same item, group, price, quantity and identity. */
  lemma KnownIff(evidence: seq<Evidence.Observation>, o: Evidence.Observation)
    ensures AlreadyKnown(evidence, o) <==>
            o.auctionId > 0 &&
            exists i :: 0 <= i < |evidence| && OfAuction(evidence[i], o) && (forall j | 0 <= j < i :: !OfAuction(evidence[j], o)) &&
                        evidence[i] == o.(observedAt := evidence[i].observedAt, expiresAt := evidence[i].expiresAt)
  {
    hide ObservedAt;
    var i := ObservedAt(evidence, o);
    if o.auctionId > 0 {
      assert forall j | 0 <= j < |evidence| :: SameAuction(evidence[j], o) <==> OfAuction(evidence[j], o);
    }
  }

  predicate OfAuction(x: Evidence.Observation, o: Evidence.Observation)
  {
    x.auctionId == o.auctionId && x.market == o.market && x.source == o.source
  }
}
