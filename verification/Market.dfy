/**
 The market makers' book: positions, the writes that persist them, and the evidence their prices
 rest on. A position is not touched while a write about it is under way, and after a write has
 failed nothing moves until the book is restored.
 */
module Market {
  import opened Economy
  import opened Positions
  import opened ReferencePrices
  import Evidence

  datatype CooldownCause = LossCause | FailedPurchaseCause | FailedListingCause | ExpiredCause

  datatype Cooldown = Cooldown(trader: uint32, market: uint32, group: string, cause: CooldownCause, nextEligibleAt: nat)

  /** A write that has been handed to the store. Writes about a position carry it. */
  datatype PendingWrite = PendingWrite(token: nat, leaseId: nat, irreversible: bool, position: Option<Position>)

  datatype Failure = Failure(token: nat, leaseId: nat, retainClaim: bool)

  datatype Mutation = Rejected | Accepted(releasedCost: nat, token: nat)

  datatype Backing = Backing(publicId: string, quantity: uint32)

  datatype Reconciliation = Reconciliation(publicId: string, remaining: uint32, acquisition: nat, state: PositionState)

  datatype Startup = Startup(
    evidence: seq<Evidence.Observation>,
    positions: seq<Position>,
    cooldowns: seq<Cooldown>,
    circulation: seq<Circulation>,
    backing: seq<Backing>)

  // ----- looking things up

  function PositionIndex(positions: seq<Position>, id: string): (i: nat)
    ensures i <= |positions|
    ensures i < |positions| ==> positions[i].publicId == id
    ensures forall j | 0 <= j < i :: positions[j].publicId != id
  {
    if positions == [] then 0
    else
      var n := |positions| - 1;
      var i := PositionIndex(positions[..n], id);
      if i < n then i else if positions[n].publicId == id then n else n + 1
  }

  /** The position with an id, if there is one. */
  function At(positions: seq<Position>, id: string): Option<Position>
  {
    if PositionIndex(positions, id) < |positions| then Some(positions[PositionIndex(positions, id)]) else None
  }

  predicate HasPending(writes: seq<PendingWrite>, id: string)
  {
    exists w | w in writes :: w.position.Some? && w.position.value.publicId == id
  }

  predicate Speculated(circulation: seq<Circulation>, itemGuid: nat)
  {
    exists c | c in circulation :: c.itemGuid == itemGuid && c.speculative
  }

  predicate SameKey(p: Position, q: Position)
  {
    p.trader == q.trader && p.market == q.market && p.group == q.group
  }

  /** Ids are unique, and so is a trader's position in a group of a market. */
  predicate Keyed(positions: seq<Position>)
  {
    forall i, j | 0 <= i < j < |positions| :: positions[i].publicId != positions[j].publicId && !SameKey(positions[i], positions[j])
  }

  /** Tokens are unique, and no position has two writes under way. */
  predicate WritesOk(writes: seq<PendingWrite>, nextToken: nat)
  {
    && (forall i | 0 <= i < |writes| :: writes[i].token < nextToken)
    && (forall i, j | 0 <= i < j < |writes| :: writes[i].token != writes[j].token)
    && (forall i, j | 0 <= i < j < |writes| && writes[i].position.Some? && writes[j].position.Some? ::
          writes[i].position.value.publicId != writes[j].position.value.publicId)
  }

  /** Positions with a write under way are what they were. */
  predicate Untouched(before: seq<Position>, after: seq<Position>, writes: seq<PendingWrite>)
  {
    forall w | w in writes && w.position.Some? :: At(after, w.position.value.publicId) == At(before, w.position.value.publicId)
  }

  /** A position on the book is the one that was sent, except perhaps for the time of its last update. */
  predicate SentAs(held: Position, sent: Position)
  {
    held.(updatedAt := sent.updatedAt) == sent
  }

  /** Of a position with a write under way the book holds what was sent, unless it was closed. */
  predicate InStep(positions: seq<Position>, writes: seq<PendingWrite>)
  {
    forall w | w in writes && w.position.Some? ::
      var held := At(positions, w.position.value.publicId); held == None || SentAs(held.value, w.position.value)
  }

  /** The same, to the time of the last update. */
  predicate InStepExactly(positions: seq<Position>, writes: seq<PendingWrite>)
  {
    forall w | w in writes && w.position.Some? ::
      var held := At(positions, w.position.value.publicId); held == None || held == w.position
  }

  lemma InStepNext(before: seq<Position>, after: seq<Position>, writes: seq<PendingWrite>, w: PendingWrite)
    requires InStep(before, writes) && Untouched(before, after, writes)
    requires w.position.Some? ==> var held := At(after, w.position.value.publicId); held == None || held == w.position
    ensures InStep(after, writes + [w])
  {
    hide At;
  }

  lemma InStepQueued(positions: seq<Position>, writes: seq<PendingWrite>, w: PendingWrite)
    requires InStep(positions, writes) && w.position.None?
    ensures InStep(positions, writes + [w])
  {
    hide At;
  }

  predicate AllValid(positions: seq<Position>)
  {
    forall i | 0 <= i < |positions| :: IsValid(positions[i])
  }

  ghost predicate EvidenceOk(evidence: seq<Evidence.Observation>)
  {
    Evidence.AllValid(evidence) && forall key :: Evidence.CountKey(evidence, key) <= Evidence.MAX_EVIDENCE_PER_GROUP
  }

  lemma QueueKeepsWrites(writes: seq<PendingWrite>, nextToken: nat, w: PendingWrite)
    requires w.token == nextToken
    ensures WritesOk(writes, nextToken) && (w.position.Some? ==> !HasPending(writes, w.position.value.publicId)) ==>
              WritesOk(writes + [w], nextToken + 1)
  {
    if w.position.Some? && !HasPending(writes, w.position.value.publicId) {
      forall i | 0 <= i < |writes|
        ensures writes[i].position.Some? ==> writes[i].position.value.publicId != w.position.value.publicId
      {
        assert writes[i] in writes;
      }
    }
  }

  lemma AppendedElsewhere(positions: seq<Position>, p: Position, id: string)
    requires id != p.publicId
    ensures At(positions + [p], id) == At(positions, id)
  {
    var after := positions + [p];
    var i := PositionIndex(positions, id);
    assert after[..|positions|] == positions;
  }

  lemma ReplacedElsewhere(positions: seq<Position>, i: nat, p: Position, id: string)
    requires i < |positions| && positions[i].publicId == p.publicId != id
    ensures At(positions[i := p], id) == At(positions, id)
  {
    var after := positions[i := p];
    forall j | 0 <= j < |positions|
      ensures after[j].publicId == positions[j].publicId
    {
    }
    SameIndex(positions, after, id);
  }

  lemma SameIndex(positions: seq<Position>, after: seq<Position>, id: string)
    requires |after| == |positions| && forall j | 0 <= j < |positions| :: after[j].publicId == positions[j].publicId
    ensures PositionIndex(after, id) == PositionIndex(positions, id)
  {
  }

  lemma RemovedElsewhere(positions: seq<Position>, i: nat, id: string)
    requires i < |positions| && positions[i].publicId != id
    ensures At(Without(positions, i), id) == At(positions, id)
  {
    var after := Without(positions, i);
    var m, k := PositionIndex(positions, id), PositionIndex(after, id);
    forall j | 0 <= j < |after|
      ensures after[j] == positions[if j < i then j else j + 1]
    {
    }
    if m < |positions| {
      assert after[if m < i then m else m - 1] == positions[m];
    }
    if k < |after| {
      assert positions[if k < i then k else k + 1] == after[k];
    }
  }

  // ----- opening

  predicate OpensWith(p: Position, state: PositionState, itemGuid: nat, now: nat)
  {
    && p.publicId != "" && p.trader != 0 && p.market != 0 && p.item != 0 && p.group != "" && p.initial != 0
    && p.remaining == p.initial && p.acquisition != 0 && itemGuid != 0 && now != 0 && p.maxRelists != 0
    && p.cooldownSeconds != 0 && p.holdingDeadline > now && p.state == state && p.realizedCost == 0 && p.proceeds == 0
    && p.fees == 0 && p.closedAt == 0 && p.outcome.NoOutcome?
  }

  function OpenedAt(p: Position, now: nat): Position
  {
    p.(openedAt := now, updatedAt := now, relists := 0)
  }

  lemma OpenedIsValid(p: Position, state: PositionState, itemGuid: nat, now: nat)
    requires OpensWith(p, state, itemGuid, now) && (state.Open? || state.Pending?)
    ensures IsValid(OpenedAt(p, now))
  {
  }

  /** A position in the way of a new one. Staging is stricter: one position per trader and market. */
  predicate InTheWay(q: Position, p: Position, staging: bool)
  {
    q.publicId == p.publicId || (q.trader == p.trader && q.market == p.market && (staging || q.group == p.group))
  }

  predicate MayOpen(positions: seq<Position>, writes: seq<PendingWrite>, circulation: seq<Circulation>, p: Position,
                    itemGuid: nat, staging: bool)
  {
    && (forall q | q in positions :: !InTheWay(q, p, staging))
    && !HasPending(writes, p.publicId) && !Speculated(circulation, itemGuid)
  }

  lemma OpeningKeepsKeyed(positions: seq<Position>, p: Position, staging: bool)
    requires Keyed(positions) && forall q | q in positions :: !InTheWay(q, p, staging)
    ensures Keyed(positions + [p])
  {
    forall i | 0 <= i < |positions|
      ensures positions[i].publicId != p.publicId && !SameKey(positions[i], p)
    {
      assert positions[i] in positions;
    }
  }

  lemma OpeningLeavesPending(positions: seq<Position>, p: Position, writes: seq<PendingWrite>)
    requires !HasPending(writes, p.publicId)
    ensures Untouched(positions, positions + [p], writes)
    ensures (forall q | q in positions :: q.publicId != p.publicId) ==> At(positions + [p], p.publicId) == Some(p)
  {
    if forall q | q in positions :: q.publicId != p.publicId {
      assert forall j | 0 <= j < |positions| :: positions[j] in positions;
      assert (positions + [p])[|positions|] == p;
    }
    forall w | w in writes && w.position.Some?
      ensures At(positions + [p], w.position.value.publicId) == At(positions, w.position.value.publicId)
    {
      AppendedElsewhere(positions, p, w.position.value.publicId);
    }
  }

  // ----- changing and removing

  lemma ReplacingKeepsKeyed(positions: seq<Position>, i: nat, p: Position)
    requires Keyed(positions) && i < |positions| && p.publicId == positions[i].publicId && SameKey(p, positions[i])
    ensures Keyed(positions[i := p])
  {
  }

  lemma ReplacingLeavesPending(positions: seq<Position>, i: nat, p: Position, writes: seq<PendingWrite>)
    requires i < |positions| && p.publicId == positions[i].publicId && !HasPending(writes, p.publicId)
    ensures Untouched(positions, positions[i := p], writes)
    ensures i == PositionIndex(positions, p.publicId) ==> At(positions[i := p], p.publicId) == Some(p)
  {
    SameIndex(positions, positions[i := p], p.publicId);
    forall w | w in writes && w.position.Some?
      ensures At(positions[i := p], w.position.value.publicId) == At(positions, w.position.value.publicId)
    {
      ReplacedElsewhere(positions, i, p, w.position.value.publicId);
    }
  }

  lemma RemovingKeepsKeyed(positions: seq<Position>, i: nat)
    requires Keyed(positions) && i < |positions|
    ensures Keyed(Without(positions, i)) && (AllValid(positions) ==> AllValid(Without(positions, i)))
  {
    var after := Without(positions, i);
    forall j | 0 <= j < |after|
      ensures after[j] == positions[if j < i then j else j + 1]
    {
    }
  }

  lemma RemovedIsGone(positions: seq<Position>, i: nat)
    requires i < |positions| && Keyed(positions)
    ensures At(Without(positions, i), positions[i].publicId) == None
  {
    var after := Without(positions, i);
    forall j | 0 <= j < |after|
      ensures after[j].publicId != positions[i].publicId
    {
      assert after[j] == positions[if j < i then j else j + 1];
    }
  }

  lemma RemovingLeavesPending(positions: seq<Position>, i: nat, writes: seq<PendingWrite>)
    requires i < |positions| && !HasPending(writes, positions[i].publicId)
    ensures Untouched(positions, Without(positions, i), writes)
    ensures Keyed(positions) ==> At(Without(positions, i), positions[i].publicId) == None
  {
    if Keyed(positions) {
      RemovedIsGone(positions, i);
    }
    forall w | w in writes && w.position.Some?
      ensures At(Without(positions, i), w.position.value.publicId) == At(positions, w.position.value.publicId)
    {
      RemovedElsewhere(positions, i, w.position.value.publicId);
    }
  }

  /** The last staged lot of a position. */
  function LastPending(circulation: seq<Circulation>, id: string): (c: Option<Circulation>)
    ensures c.Some? ==> c.value in circulation && c.value.publicId == id && c.value.state.PendingItem?
    ensures c.None? ==> forall d | d in circulation :: d.publicId != id || !d.state.PendingItem?
    ensures c.Some? ==> exists i :: 0 <= i < |circulation| && circulation[i] == c.value &&
                          forall j | i < j < |circulation| :: circulation[j].publicId != id || !circulation[j].state.PendingItem?
  {
    if circulation == [] then None
    else
      var last := circulation[|circulation| - 1];
      if last.publicId == id && last.state.PendingItem? then Some(last) else LastPending(circulation[..|circulation| - 1], id)
  }

  function WithoutLots(circulation: seq<Circulation>, id: string): (r: seq<Circulation>)
    ensures forall c :: c in r <==> c in circulation && c.publicId != id
  {
    if circulation == [] then []
    else
      var last := circulation[|circulation| - 1];
      assert forall c :: c in circulation <==> c in circulation[..|circulation| - 1] || c == last;
      WithoutLots(circulation[..|circulation| - 1], id) + if last.publicId == id then [] else [last]
  }

  function CooldownAt(cooldowns: seq<Cooldown>, c: Cooldown): (i: nat)
    ensures i <= |cooldowns|
    ensures i < |cooldowns| ==> SameCooldown(cooldowns[i], c)
    ensures forall j | 0 <= j < i :: !SameCooldown(cooldowns[j], c)
  {
    if cooldowns == [] then 0
    else
      var n := |cooldowns| - 1;
      var i := CooldownAt(cooldowns[..n], c);
      if i < n then i else if SameCooldown(cooldowns[n], c) then n else n + 1
  }

  predicate SameCooldown(a: Cooldown, b: Cooldown)
  {
    a.trader == b.trader && a.market == b.market && a.group == b.group
  }

  function WithCooldown(cooldowns: seq<Cooldown>, c: Cooldown): seq<Cooldown>
  {
    var i := CooldownAt(cooldowns, c);
    if i < |cooldowns| then cooldowns[i := c] else cooldowns + [c]
  }

  /** Goods that expired unsold or were lost rest the trader's interest in the group for a while. */
  function CooldownsAfter(cooldowns: seq<Cooldown>, p: Position, e: PositionEvent): seq<Cooldown>
  {
    if p.cooldownSeconds == 0 || !(e.kind.ExpiredEvent? || e.kind.LostEvent?) then cooldowns
    else
      WithCooldown(cooldowns, Cooldown(p.trader, p.market, p.group,
                                       if e.kind.ExpiredEvent? then ExpiredCause else LossCause,
                                       Min(MAX_UINT64, EffectiveTime(p, e.occurredAt) + p.cooldownSeconds)))
  }

  lemma AppliedKeepsKey(p: Position, e: PositionEvent)
    requires Applicable(p, e)
    ensures Applied(p, e).publicId == p.publicId && SameKey(Applied(p, e), p)
    ensures Applied(p, e).acquisition <= p.acquisition
  {
    hide ProRata;
  }

  lemma TokenAtStays(writes: seq<PendingWrite>, nextToken: nat, i: nat)
    requires WritesOk(writes, nextToken) && i < |writes|
    ensures WritesOk(writes[..i] + writes[i + 1..], nextToken)
  {
    var after := writes[..i] + writes[i + 1..];
    forall j | 0 <= j < |after|
      ensures after[j] == writes[if j < i then j else j + 1]
    {
    }
  }

  function TokenAt(writes: seq<PendingWrite>, token: nat): (i: nat)
    ensures i <= |writes|
    ensures i < |writes| ==> writes[i].token == token
    ensures i == |writes| ==> forall w | w in writes :: w.token != token
  {
    if writes == [] then 0
    else
      var n := |writes| - 1;
      var i := TokenAt(writes[..n], token);
      if i < n then i else if writes[n].token == token then n else n + 1
  }

  /** What a failed write leaves of the positions: the one it was about is back as it was sent. */
  function PutBack(positions: seq<Position>, p: Position): seq<Position>
  {
    var i := PositionIndex(positions, p.publicId);
    if i < |positions| then positions[i := p] else positions + [p]
  }

  // ----- the book

  class Market {
    var evidence: seq<Evidence.Observation>
    var positions: seq<Position>
    var cooldowns: seq<Cooldown>
    var circulation: seq<Circulation>
    var pendingWrites: seq<PendingWrite>
    var failures: seq<Failure>
    var nextToken: nat
    var generation: nat
    var healthy: bool

    ghost predicate Valid()
      reads this
    {
      EvidenceOk(evidence) && WritesOk(pendingWrites, nextToken) && InStep(positions, pendingWrites) && (healthy ==> Keyed(positions))
    }

    constructor ()
      ensures Valid() && healthy && positions == [] && evidence == [] && pendingWrites == [] && circulation == []
    {
      evidence, positions, cooldowns, circulation, pendingWrites, failures := [], [], [], [], [], [];
      nextToken, generation, healthy := 1, 0, true;
    }

    method QueueWrite(position: Option<Position>, leaseId: nat, irreversible: bool) returns (token: nat)
      modifies `pendingWrites, `nextToken, `generation
      ensures WritesOk(old(pendingWrites), old(nextToken)) &&
              (position.Some? ==> !HasPending(old(pendingWrites), position.value.publicId)) ==>
                WritesOk(pendingWrites, nextToken)
      ensures token == old(nextToken) && nextToken == old(nextToken) + 1 && generation == old(generation) + 1
      ensures pendingWrites == old(pendingWrites) + [PendingWrite(token, leaseId, irreversible, position)]
    {
      hide WritesOk, HasPending;
      token := nextToken;
      QueueKeepsWrites(pendingWrites, nextToken, PendingWrite(token, leaseId, irreversible, position));
      generation := generation + 1;
      nextToken := nextToken + 1;
      pendingWrites := pendingWrites + [PendingWrite(token, leaseId, irreversible, position)];
    }

    /** Opens a position on goods already bought, or stages one on goods still at auction. */
    method Enter(p: Position, itemGuid: nat, auctionId: uint32, leaseId: nat, now: nat, staging: bool) returns (r: Mutation)
      requires Valid() && healthy && MayOpen(positions, pendingWrites, circulation, p, itemGuid, staging)
      modifies `positions, `circulation, `pendingWrites, `nextToken, `generation
      ensures Valid() && r == Accepted(0, old(nextToken))
      ensures positions == old(positions) + [OpenedAt(p, now)]
      ensures circulation == old(circulation) +
                [Circulation(p.publicId, itemGuid, p.remaining, auctionId, true, if staging then PendingItem else Acquired, now)]
      ensures pendingWrites == old(pendingWrites) + [PendingWrite(old(nextToken), leaseId, !staging, Some(OpenedAt(p, now)))]
      ensures Untouched(old(positions), positions, old(pendingWrites))
    {
      hide EvidenceOk, WritesOk, Keyed, Untouched, HasPending, Speculated, InStep, At;
      var entered := OpenedAt(p, now);
      OpeningKeepsKeyed(positions, entered, staging);
      OpeningLeavesPending(positions, entered, pendingWrites);
      positions := positions + [entered];
      circulation := circulation +
        [Circulation(p.publicId, itemGuid, p.remaining, auctionId, true, if staging then PendingItem else Acquired, now)];
      var token := QueueWrite(Some(entered), leaseId, !staging);
      InStepNext(old(positions), positions, old(pendingWrites), PendingWrite(token, leaseId, !staging, Some(entered)));
      r := Accepted(0, token);
    }

    method OpenPosition(p: Position, itemGuid: nat, leaseId: nat, now: nat) returns (r: Mutation)
      requires Valid()
      modifies `positions, `circulation, `pendingWrites, `nextToken, `generation
      ensures Valid()
      ensures r.Accepted? <==> old(healthy) && OpensWith(p, Open, itemGuid, now) &&
                               MayOpen(old(positions), old(pendingWrites), old(circulation), p, itemGuid, false)
      ensures r.Rejected? ==> unchanged(this)
      ensures r.Accepted? ==> positions == old(positions) + [OpenedAt(p, now)] && r.token == old(nextToken) && healthy
      ensures r.Accepted? ==> circulation == old(circulation) + [Circulation(p.publicId, itemGuid, p.remaining, 0, true, Acquired, now)]
      ensures r.Accepted? ==> pendingWrites == old(pendingWrites) + [PendingWrite(old(nextToken), leaseId, true, Some(OpenedAt(p, now)))]
      ensures Untouched(old(positions), positions, old(pendingWrites))
      ensures AllValid(old(positions)) ==> AllValid(positions)
    {
      hide EvidenceOk, WritesOk, Keyed, HasPending, Speculated, At, InStep;
      r := Rejected;
      if healthy && OpensWith(p, Open, itemGuid, now) && MayOpen(positions, pendingWrites, circulation, p, itemGuid, false) {
        OpenedIsValid(p, Open, itemGuid, now);
        r := Enter(p, itemGuid, 0, leaseId, now, false);
      }
    }

    method StagePosition(p: Position, itemGuid: nat, auctionId: uint32, leaseId: nat, now: nat) returns (r: Mutation)
      requires Valid()
      modifies `positions, `circulation, `pendingWrites, `nextToken, `generation
      ensures Valid()
      ensures r.Accepted? <==> old(healthy) && auctionId != 0 && OpensWith(p, Pending, itemGuid, now) &&
                               MayOpen(old(positions), old(pendingWrites), old(circulation), p, itemGuid, true)
      ensures r.Rejected? ==> unchanged(this)
      ensures r.Accepted? ==> positions == old(positions) + [OpenedAt(p, now)] && r.token == old(nextToken) && healthy
      ensures r.Accepted? ==> circulation == old(circulation) + [Circulation(p.publicId, itemGuid, p.remaining, auctionId, true, PendingItem, now)]
      ensures r.Accepted? ==> pendingWrites == old(pendingWrites) + [PendingWrite(old(nextToken), leaseId, false, Some(OpenedAt(p, now)))]
      ensures Untouched(old(positions), positions, old(pendingWrites))
      ensures AllValid(old(positions)) ==> AllValid(positions)
    {
      hide EvidenceOk, WritesOk, Keyed, HasPending, Speculated, At, InStep;
      r := Rejected;
      if healthy && auctionId != 0 && OpensWith(p, Pending, itemGuid, now) &&
         MayOpen(positions, pendingWrites, circulation, p, itemGuid, true) {
        OpenedIsValid(p, Pending, itemGuid, now);
        r := Enter(p, itemGuid, auctionId, leaseId, now, true);
      }
    }

    method ActivatePendingPosition(id: string, leaseId: nat, now: nat) returns (r: Mutation)
      requires Valid()
      modifies `positions, `circulation, `pendingWrites, `nextToken, `generation
      ensures Valid()
      ensures var i := PositionIndex(old(positions), id);
              && (r.Accepted? <==> old(healthy) && i < |old(positions)| && old(positions)[i].state.Pending? && now != 0 &&
                                   !HasPending(old(pendingWrites), id) && LastPending(old(circulation), id).Some?)
              && (r.Accepted? ==>
                    var p := old(positions)[i];
                    var q := p.(state := Open, updatedAt := EffectiveTime(p, now));
                    && positions == old(positions)[i := q] && r.token == old(nextToken)
                    && circulation == old(circulation) +
                         [LastPending(old(circulation), id).value.(state := Acquired, occurredAt := q.updatedAt)]
                    && pendingWrites == old(pendingWrites) + [PendingWrite(old(nextToken), leaseId, true, Some(q))])
      ensures r.Rejected? ==> unchanged(this)
      ensures Untouched(old(positions), positions, old(pendingWrites))
      ensures AllValid(old(positions)) ==> AllValid(positions)
    {
      hide EvidenceOk, WritesOk, Keyed, HasPending, At, InStep;
      r := Rejected;
      var i := PositionIndex(positions, id);
      if !healthy || i == |positions| || !positions[i].state.Pending? || now == 0 || HasPending(pendingWrites, id) {
        return;
      }
      var lot := LastPending(circulation, id);
      if lot.None? {
        return;
      }
      var updated := positions[i];
      updated := updated.(state := Open, updatedAt := if updated.updatedAt == MAX_UINT64 then MAX_UINT64 else Max(now, updated.updatedAt + 1));
      ReplacingKeepsKeyed(positions, i, updated);
      ReplacingLeavesPending(positions, i, updated, pendingWrites);
      circulation := circulation + [lot.value.(state := Acquired, occurredAt := updated.updatedAt)];
      positions := positions[i := updated];
      var token := QueueWrite(Some(updated), leaseId, true);
      InStepNext(old(positions), positions, old(pendingWrites), PendingWrite(token, leaseId, true, Some(updated)));
      r := Accepted(0, token);
    }

    method CancelPendingPosition(id: string, leaseId: nat) returns (token: nat)
      requires Valid()
      modifies `positions, `circulation, `pendingWrites, `nextToken, `generation
      ensures Valid()
      ensures var i := PositionIndex(old(positions), id);
              var cancels := old(healthy) && i < |old(positions)| && old(positions)[i].state.Pending? && !HasPending(old(pendingWrites), id);
              if cancels then
                && token == old(nextToken) && positions == Without(old(positions), i)
                && circulation == WithoutLots(old(circulation), id)
                && pendingWrites == old(pendingWrites) + [PendingWrite(token, leaseId, false, Some(old(positions)[i]))]
              else token == 0 && unchanged(this)
      ensures Untouched(old(positions), positions, old(pendingWrites))
      ensures AllValid(old(positions)) ==> AllValid(positions)
    {
      hide EvidenceOk, WritesOk, Keyed, HasPending, At, InStep, Without;
      token := 0;
      var i := PositionIndex(positions, id);
      if !healthy || i == |positions| || !positions[i].state.Pending? || HasPending(pendingWrites, id) {
        return;
      }
      var position := positions[i];
      RemovingKeepsKeyed(positions, i);
      RemovingLeavesPending(positions, i, pendingWrites);
      positions := Without(positions, i);
      circulation := WithoutLots(circulation, id);
      token := QueueWrite(Some(position), leaseId, false);
      InStepNext(old(positions), positions, old(pendingWrites), PendingWrite(token, leaseId, false, Some(position)));
    }

    /** The position an event leaves behind, step by step; or nothing if the event does not apply. */
    method Settle(p: Position, e: PositionEvent) returns (updated: Option<Position>, releasedCost: nat)
      requires e.itemGuid != 0 && e.quantity != 0 && e.occurredAt != 0 && !p.state.Pending? && e.quantity <= p.remaining
      ensures updated.Some? <==> Applicable(p, e)
      ensures updated.Some? ==> updated.value == Applied(p, e) && releasedCost == p.acquisition - updated.value.acquisition
    {
      hide ProRata;
      updated, releasedCost := None, 0;
      var at := EffectiveTime(p, e.occurredAt);
      var q := p;
      match e.kind {
        case SplitEvent =>
          if e.replacementItemGuid == 0 || e.replacementQuantity == 0 || e.quantity + e.replacementQuantity > p.remaining {
            return;
          }
        case MergeEvent =>
          if e.replacementItemGuid == 0 || e.replacementQuantity == 0 || e.replacementQuantity > p.remaining {
            return;
          }
        case ListedEvent => q := q.(state := Listed);
        case RelistedEvent =>
          if q.relists >= q.maxRelists {
            return;
          }
          q := q.(relists := q.relists + 1, state := Listed);
        case ExpiredEvent =>
          if MAX_UINT64 < q.fees + e.fees {
            return;
          }
          q := q.(fees := q.fees + e.fees, state := Open);
        case _ =>
      }
      if Terminal(e.kind) {
        if MAX_UINT64 < q.proceeds + e.proceeds || MAX_UINT64 < q.fees + e.fees {
          return;
        }
        PartWithinCost(q.acquisition, e.quantity, q.remaining);
        releasedCost := ProRata(q.acquisition, e.quantity, q.remaining);
        q := q.(remaining := q.remaining - e.quantity, acquisition := q.acquisition - releasedCost,
                realizedCost := q.realizedCost + releasedCost, proceeds := q.proceeds + e.proceeds, fees := q.fees + e.fees);
        if q.remaining == 0 {
          q := q.(state := if e.kind.LostEvent? then PositionState.Lost else Closed, closedAt := at, outcome := OutcomeOf(e.kind));
        } else {
          q := q.(state := Open);
        }
      }
      updated := Some(q.(updatedAt := at));
    }

    method ApplyPositionEvent(e: PositionEvent, leaseId: nat, irreversible: bool) returns (r: Mutation)
      requires Valid()
      modifies `positions, `circulation, `cooldowns, `pendingWrites, `nextToken, `generation
      ensures Valid()
      ensures var i := PositionIndex(old(positions), e.publicId);
              && (r.Accepted? <==> old(healthy) && i < |old(positions)| && Applicable(old(positions)[i], e) &&
                                   !HasPending(old(pendingWrites), e.publicId))
              && (r.Accepted? ==>
                    var p := old(positions)[i];
                    var q := Applied(p, e);
                    && positions == (if q.remaining != 0 then old(positions)[i := q] else Without(old(positions), i))
                    && r == Accepted(p.acquisition - q.acquisition, old(nextToken))
                    && circulation == old(circulation) + Movements(p, e) && cooldowns == CooldownsAfter(old(cooldowns), p, e)
                    && pendingWrites == old(pendingWrites) + [PendingWrite(old(nextToken), leaseId, irreversible, Some(q))])
      ensures r.Rejected? ==> unchanged(this)
      ensures Untouched(old(positions), positions, old(pendingWrites))
      ensures AllValid(old(positions)) ==> AllValid(positions)
    {
      hide EvidenceOk, WritesOk, Keyed, HasPending, At, InStep, Applied, Applicable, IsValid, Without, Movements, CooldownsAfter;
      r := Rejected;
      var i := PositionIndex(positions, e.publicId);
      if !healthy || i == |positions| {
        return;
      }
      var p := positions[i];
      ApplicableNeeds(p, e);
      if e.itemGuid == 0 || e.quantity == 0 || e.occurredAt == 0 || p.state.Pending? || e.quantity > p.remaining ||
         HasPending(pendingWrites, e.publicId) {
        return;
      }
      var settled, releasedCost := Settle(p, e);
      if settled.None? {
        return;
      }
      var updated := settled.value;
      AppliedKeepsKey(p, e);
      ReplacingKeepsKeyed(positions, i, updated);
      ReplacingLeavesPending(positions, i, updated, pendingWrites);
      RemovingKeepsKeyed(positions, i);
      RemovingLeavesPending(positions, i, pendingWrites);
      if IsValid(p) {
        EventKeepsLedger(p, e);
      }
      cooldowns := CooldownsAfter(cooldowns, p, e);
      circulation := circulation + Movements(p, e);
      positions := if updated.remaining != 0 then positions[i := updated] else Without(positions, i);
      var token := QueueWrite(Some(updated), leaseId, irreversible);
      InStepNext(old(positions), positions, old(pendingWrites), PendingWrite(token, leaseId, irreversible, Some(updated)));
      r := Accepted(releasedCost, token);
    }

    method SaveCooldown(c: Cooldown, leaseId: nat, irreversible: bool) returns (token: nat)
      requires Valid()
      modifies `cooldowns, `pendingWrites, `nextToken, `generation
      ensures Valid() && positions == old(positions)
      ensures if old(healthy) then
                && token == old(nextToken) && cooldowns == WithCooldown(old(cooldowns), c)
                && pendingWrites == old(pendingWrites) + [PendingWrite(token, leaseId, irreversible, None)]
              else token == 0 && unchanged(this)
    {
      hide EvidenceOk, WritesOk, Keyed, WithCooldown, InStep;
      token := 0;
      if healthy {
        cooldowns := WithCooldown(cooldowns, c);
        token := QueueWrite(None, leaseId, irreversible);
        InStepQueued(positions, old(pendingWrites), PendingWrite(token, leaseId, irreversible, None));
      }
    }

    method AppendCirculation(c: Circulation, leaseId: nat, irreversible: bool) returns (token: nat)
      requires Valid()
      modifies `circulation, `pendingWrites, `nextToken, `generation
      ensures Valid() && positions == old(positions)
      ensures if old(healthy) && c.publicId != "" && c.itemGuid != 0 && c.quantity != 0 && c.occurredAt != 0 then
                && token == old(nextToken) && circulation == old(circulation) + [c]
                && pendingWrites == old(pendingWrites) + [PendingWrite(token, leaseId, irreversible, None)]
              else token == 0 && unchanged(this)
    {
      hide EvidenceOk, WritesOk, Keyed, InStep;
      token := 0;
      if healthy && c.publicId != "" && c.itemGuid != 0 && c.quantity != 0 && c.occurredAt != 0 {
        circulation := circulation + [c];
        token := QueueWrite(None, leaseId, irreversible);
        InStepQueued(positions, old(pendingWrites), PendingWrite(token, leaseId, irreversible, None));
      }
    }

    /** Takes in an observed price, in place of an earlier observation of the same auction. */
    method AppendEvidence(o: Evidence.Observation, leaseId: nat, irreversible: bool) returns (token: nat)
      requires Valid()
      modifies `evidence, `pendingWrites, `nextToken, `generation
      ensures Valid() && positions == old(positions)
      ensures var accepted := old(healthy) && !AlreadyKnown(old(evidence), o) &&
                              o.market > 0 && o.item > 0 && o.group != "" && 0 < o.unitPrice <= MAX_UINT64 && o.quantity > 0 &&
                              o.observedAt < o.expiresAt;
              if accepted then
                && token == old(nextToken)
                && pendingWrites == old(pendingWrites) + [PendingWrite(token, leaseId, irreversible, None)]
                && exists keep :: Evidence.PrunedTo(WithObservation(old(evidence), o), o.observedAt, keep, evidence)
              else token == 0 && unchanged(this)
    {
      hide EvidenceOk, WritesOk, Keyed, InStep, Evidence.PrunedTo;
      token := 0;
      if !healthy || !Evidence.IsValid(o) {
        return;
      }
      var i := ObservedAt(evidence, o);
      var stored;
      if i == |evidence| {
        stored := evidence + [o];
      } else if SameObservation(evidence[i], o) {
        return;
      } else {
        stored := evidence[i := o];
      }
      WithObservationIsValid(evidence, o);
      evidence := Evidence.Prune(stored, o.observedAt);
      ghost var keep :| Evidence.PrunedTo(stored, o.observedAt, keep, evidence);
      PrunedIsOk(stored, o.observedAt, keep, evidence);
      token := QueueWrite(None, leaseId, irreversible);
      InStepQueued(positions, old(pendingWrites), PendingWrite(token, leaseId, irreversible, None));
    }

    /** Answers exactly when an unexpired sale or listing of the group is known, with a price within a
        factor of four of the median of those. */
    method ReferencePrice(market: uint32, group: string, now: nat) returns (r: Option<ReferencePrice>)
      requires Valid()
      ensures r == Reference(Candidates(evidence, market, group, now))
      ensures r.Some? <==> exists o | o in evidence ::
                o.market == market && o.group == group && now < o.expiresAt && (o.source.Sale? || o.source.Listing?)
      ensures r.Some? ==>
                var median := Median(Candidates(evidence, market, group, now));
                Max(1, median / 4) <= r.value.unitPrice <= Min(4 * median, MAX_UINT64)
    {
      hide Reference, Median;
      var candidates: seq<Evidence.Observation> := [];
      for i := 0 to |evidence|
        invariant candidates == Candidates(evidence[..i], market, group, now)
      {
        assert evidence[..i + 1][..i] == evidence[..i];
        if Tells(evidence[i], market, group, now) {
          candidates := candidates + [evidence[i]];
        }
      }
      assert evidence[..|evidence|] == evidence;
      CandidatesAreValid(evidence, market, group, now);
      ReferenceNearMedian(candidates);
      r := BuildReference(candidates);
    }

    /** Starts the book afresh from what was stored. Positions whose goods are missing in part shrink,
        those whose goods are gone are closed as lost, and both are written back. */
    method Restore(startup: Startup, now: nat) returns (reconciliations: seq<Reconciliation>, ghost keep: seq<bool>)
      modifies this
      ensures healthy && failures == [] && nextToken == old(nextToken) + |pendingWrites|
      ensures KeyedStored(startup.positions) ==> Valid()
      ensures KeyedStored(startup.positions) ==>
                (InStepExactly(positions, pendingWrites) <==>
                 forall i | 0 <= i < |startup.positions| :: StampedNow(startup.positions[i], startup.backing, now))
      ensures positions == RestoredPositions(startup.positions, startup.backing)
      ensures Numbered(pendingWrites, RestoredWrites(startup.positions, startup.backing, now), old(nextToken))
      ensures reconciliations == Reconciliations(startup.positions, startup.backing)
      ensures cooldowns == Eligible(startup.cooldowns, now) && circulation == WellFormed(startup.circulation)
      ensures Evidence.PrunedTo(Usable(startup.evidence, now), now, keep, evidence)
      ensures AllValid(positions) <==> forall i | 0 <= i < |startup.positions| :: CostSurvives(startup.positions[i], startup.backing)
    {
      hide EvidenceOk, WritesOk, Keyed, InStep, InStepExactly, StampedNow, Evidence.PrunedTo, IsValid, BackingOf, KeyedStored, Evidence.IsValid,
        RestoredPositions, RestoredWrites, Numbered, CostSurvives, Reconciliations;
      generation := generation + 1;
      positions, pendingWrites, failures, healthy := [], [], [], true;
      keep := RestoreEvidence(startup.evidence, now);
      reconciliations := RestorePositions(startup.positions, startup.backing, now);
      cooldowns := Eligible(startup.cooldowns, now);
      circulation := WellFormed(startup.circulation);
      RestoredAreValidIff(startup.positions, startup.backing);
      if KeyedStored(startup.positions) {
        RestoredIsSound(startup.positions, startup.backing, now, pendingWrites, old(nextToken));
      }
    }

    method RestoreEvidence(stored: seq<Evidence.Observation>, now: nat) returns (ghost keep: seq<bool>)
      modifies `evidence
      ensures EvidenceOk(evidence) && Evidence.PrunedTo(Usable(stored, now), now, keep, evidence)
    {
      hide EvidenceOk, Evidence.PrunedTo;
      UsableIsValid(stored, now);
      evidence := Evidence.Prune(Usable(stored, now), now);
      keep :| Evidence.PrunedTo(Usable(stored, now), now, keep, evidence);
      PrunedIsOk(Usable(stored, now), now, keep, evidence);
    }

    /** Takes in one stored position that passes the check, with the goods found of it. */
    method RestoreOne(p: Position, ghost backing: seq<Backing>, found: uint32, now: nat) returns (r: seq<Reconciliation>)
      requires IsValid(p) && found == Found(p, backing) && p.remaining != 0
      modifies `positions, `pendingWrites, `nextToken, `generation
      ensures positions == old(positions) + KeptOf(p, backing)
      ensures r == ReconciliationOf(p, backing)
      ensures var sent := SentOf(p, backing, now);
              && nextToken == old(nextToken) + |sent|
              && pendingWrites == old(pendingWrites) +
                   (if sent == [] then [] else [PendingWrite(old(nextToken), 0, true, Some(sent[0]))])
    {
      hide IsValid, BackingOf, PartlyBacked, WritesOk, HasPending;
      r := [];
      if p.state.Pending? || found == p.remaining {
        positions := positions + [p];
      } else {
        var shrunk := PartlyBacked(p, found);
        r := [Reconciliation(p.publicId, found, shrunk.acquisition, if found == 0 then PositionState.Lost else p.state)];
        var token := QueueWrite(Some(Sent(shrunk, found == 0, now)), 0, true);
        if found != 0 {
          positions := positions + [shrunk];
        }
      }
    }

    method RestorePositions(stored: seq<Position>, backing: seq<Backing>, now: nat) returns (reconciliations: seq<Reconciliation>)
      requires positions == [] && pendingWrites == []
      modifies `positions, `pendingWrites, `nextToken, `generation
      ensures positions == RestoredPositions(stored, backing)
      ensures Numbered(pendingWrites, RestoredWrites(stored, backing, now), old(nextToken))
      ensures nextToken == old(nextToken) + |pendingWrites|
      ensures reconciliations == Reconciliations(stored, backing)
    {
      hide IsValid, BackingOf, PartlyBacked, KeptOf, SentOf, ReconciliationOf;
      var backed := SumBacking(backing);
      reconciliations := [];
      for i := 0 to |stored|
        invariant positions == RestoredPositions(stored[..i], backing)
        invariant Numbered(pendingWrites, RestoredWrites(stored[..i], backing, now), old(nextToken))
        invariant nextToken == old(nextToken) + |pendingWrites|
        invariant reconciliations == Reconciliations(stored[..i], backing)
      {
        assert stored[..i + 1][..i] == stored[..i];
        var p := stored[i];
        NothingOfInvalid(p, backing, now);
        AtMostOneKept(p, backing, now);
        if IsValid(p) {
          ValidHasGoods(p);
          var found: uint32 := Min(if p.publicId in backed then backed[p.publicId] else 0, p.remaining);
          var r := RestoreOne(p, backing, found, now);
          reconciliations := reconciliations + r;
        }
      }
      assert stored[..|stored|] == stored;
    }

    /** The store's answer. A failure stops the book; the position it was about stands as it was sent. */
    method CompleteWrite(token: nat, success: bool)
      requires Valid()
      modifies `positions, `pendingWrites, `failures, `generation, `healthy
      ensures Valid()
      ensures var i := TokenAt(old(pendingWrites), token);
              if i == |old(pendingWrites)| then unchanged(this)
              else
                var w := old(pendingWrites)[i];
                && pendingWrites == old(pendingWrites)[..i] + old(pendingWrites)[i + 1..]
                && generation == old(generation) + 1 && nextToken == old(nextToken) && evidence == old(evidence)
                && cooldowns == old(cooldowns) && circulation == old(circulation)
                && (if success then healthy == old(healthy) && positions == old(positions) && failures == old(failures)
                    else
                      && !healthy && failures == old(failures) + [Failure(token, w.leaseId, w.irreversible)]
                      && positions == if w.position.Some? then PutBack(old(positions), w.position.value) else old(positions))
    {
      hide EvidenceOk, WritesOk, Keyed, PutBack, InStep;
      var i := TokenAt(pendingWrites, token);
      if i == |pendingWrites| {
        return;
      }
      generation := generation + 1;
      var w := pendingWrites[i];
      if !success {
        healthy := false;
        failures := failures + [Failure(w.token, w.leaseId, w.irreversible)];
        if w.position.Some? {
          positions := PutBack(positions, w.position.value);
        }
      }
      TokenAtStays(pendingWrites, nextToken, i);
      AnsweredStaysInStep(old(positions), pendingWrites, nextToken, i);
      pendingWrites := pendingWrites[..i] + pendingWrites[i + 1..];
    }
  }

  // ----- restoring

  function BackingOf(backing: seq<Backing>, id: string): nat
  {
    if backing == [] then 0
    else
      var last := backing[|backing| - 1];
      BackingOf(backing[..|backing| - 1], id) + if last.publicId == id then last.quantity else 0
  }

  method SumBacking(backing: seq<Backing>) returns (sums: map<string, nat>)
    ensures forall id :: BackingOf(backing, id) == if id in sums then sums[id] else 0
  {
    sums := map[];
    for i := 0 to |backing|
      invariant forall id :: BackingOf(backing[..i], id) == if id in sums then sums[id] else 0
    {
      assert backing[..i + 1][..i] == backing[..i];
      var b := backing[i];
      sums := sums[b.publicId := (if b.publicId in sums then sums[b.publicId] else 0) + b.quantity];
    }
    assert backing[..|backing|] == backing;
  }

  /** The goods found of a stored position. */
  function Found(p: Position, backing: seq<Backing>): uint32 { Min(BackingOf(backing, p.publicId), p.remaining) }

  predicate Short(p: Position, backing: seq<Backing>)
  {
    !p.state.Pending? && Found(p, backing) < p.remaining
  }

  function KeptOf(p: Position, backing: seq<Backing>): seq<Position>
  {
    if !IsValid(p) then []
    else if !Short(p, backing) then [p]
    else if Found(p, backing) == 0 then []
    else [PartlyBacked(p, Found(p, backing))]
  }

  /** A shrunk position as it is written back. */
  function Sent(shrunk: Position, gone: bool, now: nat): Position
  {
    if gone then shrunk.(state := PositionState.Lost, updatedAt := now, closedAt := now, outcome := Loss) else shrunk.(updatedAt := now)
  }

  function SentOf(p: Position, backing: seq<Backing>, now: nat): seq<Position>
  {
    if !IsValid(p) || !Short(p, backing) then [] else [Sent(PartlyBacked(p, Found(p, backing)), Found(p, backing) == 0, now)]
  }

  function RestoredPositions(stored: seq<Position>, backing: seq<Backing>): seq<Position>
  {
    if stored == [] then [] else RestoredPositions(stored[..|stored| - 1], backing) + KeptOf(stored[|stored| - 1], backing)
  }

  function RestoredWrites(stored: seq<Position>, backing: seq<Backing>, now: nat): seq<Position>
  {
    if stored == [] then [] else RestoredWrites(stored[..|stored| - 1], backing, now) + SentOf(stored[|stored| - 1], backing, now)
  }

  function ReconciliationOf(p: Position, backing: seq<Backing>): seq<Reconciliation>
  {
    if !IsValid(p) || !Short(p, backing) then []
    else [Reconciliation(p.publicId, Found(p, backing), PartlyBacked(p, Found(p, backing)).acquisition,
                         if Found(p, backing) == 0 then PositionState.Lost else p.state)]
  }

  function Reconciliations(stored: seq<Position>, backing: seq<Backing>): seq<Reconciliation>
  {
    if stored == [] then []
    else Reconciliations(stored[..|stored| - 1], backing) + ReconciliationOf(stored[|stored| - 1], backing)
  }

  lemma NothingOfInvalid(p: Position, backing: seq<Backing>, now: nat)
    ensures !IsValid(p) ==> KeptOf(p, backing) == [] && SentOf(p, backing, now) == [] && ReconciliationOf(p, backing) == []
  {
  }

  predicate Numbered(writes: seq<PendingWrite>, sent: seq<Position>, start: nat)
  {
    |writes| == |sent| && forall k | 0 <= k < |sent| :: writes[k] == PendingWrite(start + k, 0, true, Some(sent[k]))
  }

  function Eligible(cooldowns: seq<Cooldown>, now: nat): (r: seq<Cooldown>)
    ensures forall c :: c in r <==> c in cooldowns && c.trader > 0 && c.market > 0 && |c.group| > 0 && now < c.nextEligibleAt
  {
    if cooldowns == [] then []
    else
      var c := cooldowns[|cooldowns| - 1];
      assert forall d :: d in cooldowns <==> d in cooldowns[..|cooldowns| - 1] || d == c;
      Eligible(cooldowns[..|cooldowns| - 1], now) +
      if c.trader != 0 && c.market != 0 && c.group != "" && c.nextEligibleAt > now then [c] else []
  }

  function WellFormed(circulation: seq<Circulation>): (r: seq<Circulation>)
    ensures forall c :: c in r <==> c in circulation && |c.publicId| > 0 && c.itemGuid > 0 && c.quantity > 0 && c.occurredAt > 0
  {
    if circulation == [] then []
    else
      var c := circulation[|circulation| - 1];
      assert forall d :: d in circulation <==> d in circulation[..|circulation| - 1] || d == c;
      WellFormed(circulation[..|circulation| - 1]) +
      if c.publicId != "" && c.itemGuid != 0 && c.quantity != 0 && c.occurredAt != 0 then [c] else []
  }

  function Usable(evidence: seq<Evidence.Observation>, now: nat): (r: seq<Evidence.Observation>)
    ensures forall o :: o in r <==> o in evidence && Evidence.IsValid(o) && now < o.expiresAt
  {
    if evidence == [] then []
    else
      var o := evidence[|evidence| - 1];
      assert forall d :: d in evidence <==> d in evidence[..|evidence| - 1] || d == o;
      Usable(evidence[..|evidence| - 1], now) + if Evidence.IsValid(o) && o.expiresAt > now then [o] else []
  }

  lemma {:induction false} UsableIsValid(evidence: seq<Evidence.Observation>, now: nat)
    ensures Evidence.AllValid(Usable(evidence, now))
  {
    if evidence == [] {
    } else {
      UsableIsValid(evidence[..|evidence| - 1], now);
      hide Evidence.IsValid;
    }
  }

  lemma ValidHasGoods(p: Position)
    requires IsValid(p)
    ensures p.remaining != 0
  {
  }

  /** Stored positions that would be taken in have unique ids, and unique keys. */
  predicate KeyedStored(stored: seq<Position>)
  {
    forall i, j | 0 <= i < j < |stored| && IsValid(stored[i]) && IsValid(stored[j]) ::
      stored[i].publicId != stored[j].publicId && !SameKey(stored[i], stored[j])
  }

  predicate From(q: Position, stored: seq<Position>)
  {
    exists j :: 0 <= j < |stored| && IsValid(stored[j]) && q.publicId == stored[j].publicId && SameKey(q, stored[j])
  }

  lemma FromMore(q: Position, stored: seq<Position>, n: nat)
    requires n <= |stored| && From(q, stored[..n])
    ensures From(q, stored)
  {
    hide IsValid;
    var j :| 0 <= j < n && IsValid(stored[j]) && q.publicId == stored[j].publicId && SameKey(q, stored[j]);
  }

  lemma {:induction false} RestoredAreFromStored(stored: seq<Position>, backing: seq<Backing>, now: nat)
    ensures forall q | q in RestoredPositions(stored, backing) :: From(q, stored)
    ensures forall q | q in RestoredWrites(stored, backing, now) :: From(q, stored)
  {
    if stored == [] {
    } else {
      hide IsValid, PartlyBacked, Short, Found;
      var n := |stored| - 1;
      RestoredAreFromStored(stored[..n], backing, now);
      KeptAndSentKeepKey(stored[n], backing, now);
      forall q | q in RestoredPositions(stored[..n], backing) || q in RestoredWrites(stored[..n], backing, now)
        ensures From(q, stored)
      {
        FromMore(q, stored, n);
      }
    }
  }

  lemma KeptAndSentKeepKey(p: Position, backing: seq<Backing>, now: nat)
    ensures forall q | q in KeptOf(p, backing) || q in SentOf(p, backing, now) ::
              IsValid(p) && q.publicId == p.publicId && SameKey(q, p)
  {
    hide ProRata, IsValid, BackingOf;
  }

  lemma {:induction false} RestoredAreKeyed(stored: seq<Position>, backing: seq<Backing>)
    requires KeyedStored(stored)
    ensures Keyed(RestoredPositions(stored, backing))
  {
    if stored == [] {
    } else {
      hide IsValid, KeptOf;
      var n := |stored| - 1;
      RestoredAreKeyed(stored[..n], backing);
      RestoredAreFromStored(stored[..n], backing, 0);
      KeptAndSentKeepKey(stored[n], backing, 0);
      AtMostOneKept(stored[n], backing, 0);
      var rest := RestoredPositions(stored[..n], backing);
      forall i, q | 0 <= i < |rest| && q in KeptOf(stored[n], backing)
        ensures rest[i].publicId != q.publicId && !SameKey(rest[i], q)
      {
        assert From(rest[i], stored[..n]);
      }
    }
  }

  lemma AtMostOneKept(p: Position, backing: seq<Backing>, now: nat)
    ensures |KeptOf(p, backing)| <= 1 && |SentOf(p, backing, now)| <= 1
  {
  }

  lemma {:induction false} SentAreDistinct(stored: seq<Position>, backing: seq<Backing>, now: nat)
    requires KeyedStored(stored)
    ensures forall i, j | 0 <= i < j < |RestoredWrites(stored, backing, now)| ::
              RestoredWrites(stored, backing, now)[i].publicId != RestoredWrites(stored, backing, now)[j].publicId
  {
    if stored == [] {
    } else {
      hide IsValid, SentOf;
      var n := |stored| - 1;
      SentAreDistinct(stored[..n], backing, now);
      RestoredAreFromStored(stored[..n], backing, now);
      KeptAndSentKeepKey(stored[n], backing, now);
      AtMostOneKept(stored[n], backing, now);
      var rest := RestoredWrites(stored[..n], backing, now);
      forall i, q | 0 <= i < |rest| && q in SentOf(stored[n], backing, now)
        ensures rest[i].publicId != q.publicId
      {
        assert From(rest[i], stored[..n]);
      }
    }
  }

  lemma NumberedIsOk(writes: seq<PendingWrite>, sent: seq<Position>, start: nat)
    requires Numbered(writes, sent, start)
    requires forall i, j | 0 <= i < j < |sent| :: sent[i].publicId != sent[j].publicId
    ensures WritesOk(writes, start + |writes|)
  {
  }

  lemma {:induction false} RestoredFrom(stored: seq<Position>, backing: seq<Backing>, q: Position) returns (j: nat)
    requires q in RestoredPositions(stored, backing)
    ensures j < |stored| && q in KeptOf(stored[j], backing)
  {
    hide KeptOf;
    j := |stored| - 1;
    if q !in KeptOf(stored[j], backing) {
      j := RestoredFrom(stored[..j], backing, q);
    }
  }

  lemma {:induction false} KeptIsRestored(stored: seq<Position>, backing: seq<Backing>, j: nat, q: Position)
    requires j < |stored| && q in KeptOf(stored[j], backing)
    ensures q in RestoredPositions(stored, backing)
  {
    hide KeptOf;
    if j < |stored| - 1 {
      KeptIsRestored(stored[..|stored| - 1], backing, j, q);
    }
  }

  lemma {:induction false} SentFrom(stored: seq<Position>, backing: seq<Backing>, now: nat, q: Position) returns (j: nat)
    requires q in RestoredWrites(stored, backing, now)
    ensures j < |stored| && q in SentOf(stored[j], backing, now)
  {
    hide SentOf;
    j := |stored| - 1;
    if q !in SentOf(stored[j], backing, now) {
      j := SentFrom(stored[..j], backing, now, q);
    }
  }

  lemma {:induction false} SentIsWritten(stored: seq<Position>, backing: seq<Backing>, now: nat, j: nat, q: Position)
    requires j < |stored| && q in SentOf(stored[j], backing, now)
    ensures q in RestoredWrites(stored, backing, now)
  {
    hide SentOf;
    if j < |stored| - 1 {
      SentIsWritten(stored[..|stored| - 1], backing, now, j, q);
    }
  }

  lemma AtFinds(positions: seq<Position>, id: string)
    ensures At(positions, id).Some? ==> At(positions, id).value in positions && At(positions, id).value.publicId == id
    ensures At(positions, id).None? ==> forall p | p in positions :: p.publicId != id
  {
  }

  /** What the book holds of a stored position after a restart. */
  lemma HeldOfStored(stored: seq<Position>, backing: seq<Backing>, i: nat)
    requires KeyedStored(stored) && i < |stored| && IsValid(stored[i])
    ensures var held, kept := At(RestoredPositions(stored, backing), stored[i].publicId), KeptOf(stored[i], backing);
            if kept == [] then held == None else held == Some(kept[0])
  {
    hide KeptOf, RestoredPositions, At, IsValid;
    var positions, id := RestoredPositions(stored, backing), stored[i].publicId;
    var held, kept := At(positions, id), KeptOf(stored[i], backing);
    AtFinds(positions, id);
    AtMostOneKept(stored[i], backing, 0);
    if held.Some? {
      var j := RestoredFrom(stored, backing, held.value);
      KeptAndSentKeepKey(stored[j], backing, 0);
      assert j == i;
    } else if kept != [] {
      KeptAndSentKeepKey(stored[i], backing, 0);
      KeptIsRestored(stored, backing, i, kept[0]);
    }
  }

  lemma KeptIsSent(p: Position, backing: seq<Backing>, now: nat, sent: Position)
    requires sent in SentOf(p, backing, now)
    ensures var kept := KeptOf(p, backing);
            kept != [] ==> SentAs(kept[0], sent) && (kept[0] == sent <==> StampedNow(p, backing, now))
  {
    hide IsValid, BackingOf, ProRata;
  }

  lemma NumberedWrite(writes: seq<PendingWrite>, sent: seq<Position>, start: nat)
    requires Numbered(writes, sent, start)
    ensures forall w | w in writes :: w.position.Some? && w.position.value in sent
    ensures forall p | p in sent :: exists w :: w in writes && w.position == Some(p)
  {
    forall p | p in sent
      ensures exists w :: w in writes && w.position == Some(p)
    {
      var k :| 0 <= k < |sent| && sent[k] == p;
      assert writes[k] in writes;
    }
  }

  /** A restart leaves every position it writes back in step with the write. */
  lemma RestoredInStep(stored: seq<Position>, backing: seq<Backing>, now: nat, writes: seq<PendingWrite>, start: nat)
    requires KeyedStored(stored) && Numbered(writes, RestoredWrites(stored, backing, now), start)
    ensures InStep(RestoredPositions(stored, backing), writes)
  {
    hide RestoredPositions, RestoredWrites, Numbered, At, KeptOf, SentOf, IsValid, KeyedStored, SentAs, StampedNow;
    NumberedWrite(writes, RestoredWrites(stored, backing, now), start);
    forall w | w in writes && w.position.Some?
      ensures var held := At(RestoredPositions(stored, backing), w.position.value.publicId);
              held == None || SentAs(held.value, w.position.value)
    {
      var j := SentFrom(stored, backing, now, w.position.value);
      KeptAndSentKeepKey(stored[j], backing, now);
      HeldOfStored(stored, backing, j);
      KeptIsSent(stored[j], backing, now, w.position.value);
    }
  }

  /** A stored position is not kept in part, or was last updated at the very time of the restart. */
  predicate StampedNow(p: Position, backing: seq<Backing>, now: nat)
  {
    IsValid(p) && Short(p, backing) && Found(p, backing) > 0 ==> p.updatedAt == now
  }

  /** The writes of a restart carry its time, the positions on the book the time they were stored with:
      the two agree to the second exactly when every position kept in part was stored with that time. */
  lemma RestoredExactlyIff(stored: seq<Position>, backing: seq<Backing>, now: nat, writes: seq<PendingWrite>, start: nat)
    requires KeyedStored(stored) && Numbered(writes, RestoredWrites(stored, backing, now), start)
    ensures InStepExactly(RestoredPositions(stored, backing), writes) <==>
            forall i | 0 <= i < |stored| :: StampedNow(stored[i], backing, now)
  {
    hide RestoredPositions, RestoredWrites, Numbered, At, IsValid, KeyedStored, SentAs, StampedNow, KeptOf, SentOf;
    NumberedWrite(writes, RestoredWrites(stored, backing, now), start);
    if InStepExactly(RestoredPositions(stored, backing), writes) {
      forall i | 0 <= i < |stored|
        ensures StampedNow(stored[i], backing, now)
      {
        KeptInPart(stored[i], backing, now);
        if !StampedNow(stored[i], backing, now) {
          var sent := SentOf(stored[i], backing, now)[0];
          SentIsWritten(stored, backing, now, i, sent);
          var w :| w in writes && w.position == Some(sent);
          KeptAndSentKeepKey(stored[i], backing, now);
          HeldOfStored(stored, backing, i);
          KeptIsSent(stored[i], backing, now, sent);
        }
      }
    }
    if forall i | 0 <= i < |stored| :: StampedNow(stored[i], backing, now) {
      forall w | w in writes && w.position.Some?
        ensures var held := At(RestoredPositions(stored, backing), w.position.value.publicId); held == None || held == w.position
      {
        var j := SentFrom(stored, backing, now, w.position.value);
        KeptAndSentKeepKey(stored[j], backing, now);
        HeldOfStored(stored, backing, j);
        KeptIsSent(stored[j], backing, now, w.position.value);
      }
    }
  }

  lemma RestoredIsSound(stored: seq<Position>, backing: seq<Backing>, now: nat, writes: seq<PendingWrite>, start: nat)
    requires KeyedStored(stored) && Numbered(writes, RestoredWrites(stored, backing, now), start)
    ensures Keyed(RestoredPositions(stored, backing)) && WritesOk(writes, start + |writes|)
    ensures InStep(RestoredPositions(stored, backing), writes)
    ensures InStepExactly(RestoredPositions(stored, backing), writes) <==>
            forall i | 0 <= i < |stored| :: StampedNow(stored[i], backing, now)
  {
    hide Keyed, WritesOk, InStep, InStepExactly, StampedNow, RestoredPositions, RestoredWrites, Numbered, KeyedStored;
    RestoredAreKeyed(stored, backing);
    SentAreDistinct(stored, backing, now);
    NumberedIsOk(writes, RestoredWrites(stored, backing, now), start);
    RestoredInStep(stored, backing, now, writes, start);
    RestoredExactlyIff(stored, backing, now, writes, start);
  }

  /** A stored position of which one good is found and others are missing, and a restart at another time than its last
      update: whatever tokens the writes carry, the book and the write disagree on the time. */
  lemma RestoredMayDiffer(p: Position, now: nat, writes: seq<PendingWrite>, start: nat)
    requires IsValid(p) && !p.state.Pending? && p.remaining > 1 && p.updatedAt != now
    requires Numbered(writes, RestoredWrites([p], [Backing(p.publicId, 1)], now), start)
    ensures !InStepExactly(RestoredPositions([p], [Backing(p.publicId, 1)]), writes)
  {
    var backing := [Backing(p.publicId, 1)];
    assert backing[..0] == [] && backing[0] == Backing(p.publicId, 1);
    assert BackingOf([], p.publicId) == 0;
    assert BackingOf(backing, p.publicId) == BackingOf(backing[..0], p.publicId) + 1;
    assert Found(p, backing) == 1;
    assert [p][0] == p;
    assert !StampedNow(p, backing, now);
    RestoredExactlyIff([p], backing, now, writes, start);
  }

  lemma KeptInPart(p: Position, backing: seq<Backing>, now: nat)
    ensures !StampedNow(p, backing, now) ==> IsValid(p) && |SentOf(p, backing, now)| == 1 && |KeptOf(p, backing)| == 1
  {
    hide BackingOf, PartlyBacked;
  }

  /** A stored position keeps a cost for the goods that are left, if any are. */
  predicate CostSurvives(p: Position, backing: seq<Backing>)
  {
    IsValid(p) && Short(p, backing) && Found(p, backing) > 0 ==> p.acquisition * Found(p, backing) >= p.remaining
  }

  lemma KeptIsValidIff(p: Position, backing: seq<Backing>)
    ensures AllValid(KeptOf(p, backing)) <==> CostSurvives(p, backing)
  {
    hide BackingOf;
    if IsValid(p) && Short(p, backing) && Found(p, backing) > 0 {
      PartlyBackedIsValidIff(p, Found(p, backing));
      hide IsValid, PartlyBacked, Found;
      assert KeptOf(p, backing) == [PartlyBacked(p, Found(p, backing))];
      assert KeptOf(p, backing)[0] == PartlyBacked(p, Found(p, backing));
    }
  }

  /** Restored positions would all pass the check again exactly if every partly backed one keeps a
      cost. */
  lemma {:induction false} RestoredAreValidIff(stored: seq<Position>, backing: seq<Backing>)
    ensures AllValid(RestoredPositions(stored, backing)) <==>
            forall i | 0 <= i < |stored| :: CostSurvives(stored[i], backing)
  {
    if stored == [] {
    } else {
      var n := |stored| - 1;
      RestoredAreValidIff(stored[..n], backing);
      KeptIsValidIff(stored[n], backing);
      hide IsValid, KeptOf, CostSurvives, AllValid;
      AllValidOfBoth(RestoredPositions(stored[..n], backing), KeptOf(stored[n], backing));
    }
  }

  lemma AllValidOfBoth(a: seq<Position>, b: seq<Position>)
    ensures AllValid(a + b) <==> AllValid(a) && AllValid(b)
  {
    hide IsValid;
    assert forall i | 0 <= i < |a| :: (a + b)[i] == a[i];
    assert forall i | 0 <= i < |b| :: (a + b)[|a| + i] == b[i];
  }

  // ----- evidence

  function ObservedAt(evidence: seq<Evidence.Observation>, o: Evidence.Observation): (i: nat)
    ensures i <= |evidence|
    ensures i < |evidence| ==> o.auctionId != 0 && SameAuction(evidence[i], o)
    ensures forall j | 0 <= j < i && o.auctionId != 0 :: !SameAuction(evidence[j], o)
  {
    if evidence == [] then 0
    else
      var n := |evidence| - 1;
      var i := ObservedAt(evidence[..n], o);
      if i < n then i else if o.auctionId != 0 && SameAuction(evidence[n], o) then n else n + 1
  }

  predicate SameAuction(a: Evidence.Observation, b: Evidence.Observation)
  {
    a.market == b.market && a.auctionId == b.auctionId && a.source == b.source
  }

  predicate SameObservation(a: Evidence.Observation, b: Evidence.Observation)
  {
    a.item == b.item && a.group == b.group && a.unitPrice == b.unitPrice && a.quantity == b.quantity && a.publicId == b.publicId
  }

  predicate AlreadyKnown(evidence: seq<Evidence.Observation>, o: Evidence.Observation)
  {
    ObservedAt(evidence, o) < |evidence| && SameObservation(evidence[ObservedAt(evidence, o)], o)
  }

  function WithObservation(evidence: seq<Evidence.Observation>, o: Evidence.Observation): seq<Evidence.Observation>
  {
    var i := ObservedAt(evidence, o);
    if i < |evidence| then evidence[i := o] else evidence + [o]
  }

  lemma WithObservationIsValid(evidence: seq<Evidence.Observation>, o: Evidence.Observation)
    requires EvidenceOk(evidence) && Evidence.IsValid(o)
    ensures Evidence.AllValid(WithObservation(evidence, o))
  {
    hide Evidence.IsValid;
  }

  lemma PrunedIsOk(stored: seq<Evidence.Observation>, now: nat, keep: seq<bool>, evidence: seq<Evidence.Observation>)
    requires Evidence.PrunedTo(stored, now, keep, evidence) && Evidence.AllValid(stored)
    ensures EvidenceOk(evidence)
  {
    hide Evidence.PrunedTo, Evidence.CountKey, Evidence.IsValid, Evidence.Live;
    forall key
      ensures Evidence.CountKey(evidence, key) <= Evidence.MAX_EVIDENCE_PER_GROUP
    {
      Evidence.PrunedIsBounded(stored, now, keep, evidence, key);
    }
    Evidence.PrunedIsBounded(stored, now, keep, evidence, Evidence.EvidenceKey(0, ""));
    forall i | 0 <= i < |evidence|
      ensures Evidence.IsValid(evidence[i])
    {
      assert evidence[i] in stored;
    }
  }

  predicate Tells(o: Evidence.Observation, market: uint32, group: string, now: nat)
  {
    o.market == market && o.group == group && o.expiresAt > now && (o.source.Sale? || o.source.Listing?)
  }

  function Candidates(evidence: seq<Evidence.Observation>, market: uint32, group: string, now: nat): (r: seq<Evidence.Observation>)
    ensures forall o :: o in r <==> o in evidence && Tells(o, market, group, now)
  {
    if evidence == [] then []
    else
      var last := evidence[|evidence| - 1];
      assert forall o :: o in evidence <==> o in evidence[..|evidence| - 1] || o == last;
      Candidates(evidence[..|evidence| - 1], market, group, now) + if Tells(last, market, group, now) then [last] else []
  }

  lemma CandidatesAreValid(evidence: seq<Evidence.Observation>, market: uint32, group: string, now: nat)
    requires EvidenceOk(evidence)
    ensures Evidence.AllValid(Candidates(evidence, market, group, now))
    ensures Candidates(evidence, market, group, now) != [] <==> exists o | o in evidence :: Tells(o, market, group, now)
  {
    hide Candidates, Evidence.IsValid;
    var candidates := Candidates(evidence, market, group, now);
    forall i | 0 <= i < |candidates|
      ensures Evidence.IsValid(candidates[i]) && candidates[i] in evidence && Tells(candidates[i], market, group, now)
    {
      assert candidates[i] in candidates;
    }
    if candidates != [] {
      assert candidates[0] in evidence;
    }
  }

  /** An answered write leaves the others in step, even if its position was put back. */
  lemma AnsweredStaysInStep(positions: seq<Position>, writes: seq<PendingWrite>, nextToken: nat, i: nat)
    requires WritesOk(writes, nextToken) && InStep(positions, writes) && i < |writes|
    ensures var rest := writes[..i] + writes[i + 1..];
            InStep(positions, rest) && (writes[i].position.Some? ==> InStep(PutBack(positions, writes[i].position.value), rest))
  {
    hide SentAs;
    var rest := writes[..i] + writes[i + 1..];
    forall j | 0 <= j < |rest|
      ensures rest[j] == writes[if j < i then j else j + 1]
    {
    }
    forall w | w in rest && w.position.Some?
      ensures var held := At(positions, w.position.value.publicId); held == None || SentAs(held.value, w.position.value)
      ensures writes[i].position.Some? ==>
                At(PutBack(positions, writes[i].position.value), w.position.value.publicId) == At(positions, w.position.value.publicId)
    {
      var j :| 0 <= j < |rest| && rest[j] == w;
      assert w in writes;
      if writes[i].position.Some? {
        PutBackElsewhere(positions, writes[i].position.value, w.position.value.publicId);
      }
    }
    hide At, PutBack;
  }

  lemma PutBackElsewhere(positions: seq<Position>, p: Position, id: string)
    requires p.publicId != id
    ensures At(PutBack(positions, p), id) == At(positions, id)
  {
    var i := PositionIndex(positions, p.publicId);
    if i < |positions| {
      ReplacedElsewhere(positions, i, p, id);
    } else {
      AppendedElsewhere(positions, p, id);
    }
  }

  lemma ApplicableNeeds(p: Position, e: PositionEvent)
    ensures Applicable(p, e) ==> e.itemGuid != 0 && e.quantity != 0 && e.occurredAt != 0 && !p.state.Pending? && e.quantity <= p.remaining
  {
  }
}
