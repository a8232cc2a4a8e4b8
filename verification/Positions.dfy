/**
 A market maker's position and the events that wind it down: goods leave it piece by piece, and each
 piece takes a floored pro-rata part of the acquisition cost with it.
 */
module Positions {
  import opened Economy

  datatype PositionState = Pending | Open | Listed | Closed | Lost

  datatype PositionOutcome = NoOutcome | Sale | Use | Transformation | Vendor | Loss

  datatype Position = Position(
    publicId: string,
    trader: uint32,
    market: uint32,
    item: uint32,
    group: string,
    initial: uint32,
    remaining: uint32,
    acquisition: nat,
    realizedCost: nat,
    proceeds: nat,
    fees: nat,
    state: PositionState,
    relists: nat,
    maxRelists: nat,
    cooldownSeconds: uint32,
    openedAt: nat,
    holdingDeadline: nat,
    updatedAt: nat,
    closedAt: nat,
    outcome: PositionOutcome)

  datatype CirculationState =
    | PendingItem
    | Acquired
    | ListedItem
    | Delivered
    | Merged
    | Consumed
    | Transformed
    | Vendored
    | LostItem

  datatype Circulation = Circulation(
    publicId: string,
    itemGuid: nat,
    quantity: uint32,
    auctionId: uint32,
    speculative: bool,
    state: CirculationState,
    occurredAt: nat)

  datatype EventKind =
    | SplitEvent
    | MergeEvent
    | ListedEvent
    | RelistedEvent
    | ExpiredEvent
    | SoldEvent
    | UsedEvent
    | TransformedEvent
    | VendoredEvent
    | LostEvent

  datatype PositionEvent = PositionEvent(
    kind: EventKind,
    publicId: string,
    itemGuid: nat,
    replacementItemGuid: nat,
    quantity: uint32,
    replacementQuantity: uint32,
    auctionId: uint32,
    proceeds: nat,
    fees: nat,
    occurredAt: nat)

  predicate IsOpen(p: Position)
  {
    p.state.Pending? || p.state.Open? || p.state.Listed?
  }

  /** The check a restart applies to every stored position. */
  predicate IsValid(p: Position)
  {
    && p.publicId != "" && p.trader != 0 && p.market != 0 && p.item != 0 && p.group != ""
    && p.initial != 0 && p.remaining != 0 && p.remaining <= p.initial && p.acquisition != 0
    && p.relists <= p.maxRelists && p.maxRelists != 0 && p.cooldownSeconds != 0
    && p.openedAt != 0 && p.updatedAt >= p.openedAt && p.holdingDeadline > p.openedAt && IsOpen(p)
  }

  predicate Terminal(kind: EventKind)
  {
    kind.SoldEvent? || kind.UsedEvent? || kind.TransformedEvent? || kind.VendoredEvent? || kind.LostEvent?
  }

  function OutcomeOf(kind: EventKind): PositionOutcome
    requires Terminal(kind)
  {
    match kind
    case SoldEvent => Sale
    case UsedEvent => Use
    case TransformedEvent => Transformation
    case VendoredEvent => Vendor
    case LostEvent => Loss
  }

  /** Updates are stamped strictly later than the last one, until the clock is exhausted. */
  function EffectiveTime(p: Position, occurredAt: nat): nat
  {
    if p.updatedAt == MAX_UINT64 then MAX_UINT64 else Max(occurredAt, p.updatedAt + 1)
  }

  /** What the event asks of the position it is about. */
  predicate Applicable(p: Position, e: PositionEvent)
  {
    && e.itemGuid != 0 && e.quantity != 0 && e.occurredAt != 0 && !p.state.Pending? && e.quantity <= p.remaining
    && match e.kind
       case SplitEvent => e.replacementItemGuid != 0 && e.replacementQuantity != 0 && e.quantity + e.replacementQuantity <= p.remaining
       case MergeEvent => e.replacementItemGuid != 0 && e.replacementQuantity != 0 && e.replacementQuantity <= p.remaining
       case ListedEvent => true
       case RelistedEvent => p.relists < p.maxRelists
       case ExpiredEvent => p.fees + e.fees <= MAX_UINT64
       case _ => p.proceeds + e.proceeds <= MAX_UINT64 && p.fees + e.fees <= MAX_UINT64
  }

  /** The part of a cost that goes with part of the goods: pro rata, rounded down. */
  function ProRata(cost: nat, quantity: nat, remaining: nat): (r: nat)
    requires remaining > 0
    ensures r * remaining <= cost * quantity < r * remaining + remaining
  {
    Floored(cost * quantity, remaining);
    cost * quantity / remaining
  }

  function WoundDown(p: Position, e: PositionEvent): (r: Position)
    requires Applicable(p, e) && Terminal(e.kind)
  {
    PartWithinCost(p.acquisition, e.quantity, p.remaining);
    var released := ProRata(p.acquisition, e.quantity, p.remaining);
    var left := p.remaining - e.quantity;
    var settled := p.(remaining := left, acquisition := p.acquisition - released, realizedCost := p.realizedCost + released,
                      proceeds := p.proceeds + e.proceeds, fees := p.fees + e.fees);
    if left != 0 then settled.(state := Open)
    else settled.(state := if e.kind.LostEvent? then PositionState.Lost else Closed, closedAt := EffectiveTime(p, e.occurredAt),
                  outcome := OutcomeOf(e.kind))
  }

  function Applied(p: Position, e: PositionEvent): Position
    requires Applicable(p, e)
  {
    var settled :=
      if Terminal(e.kind) then WoundDown(p, e)
      else
        match e.kind
        case ListedEvent => p.(state := Listed)
        case RelistedEvent => p.(state := Listed, relists := p.relists + 1)
        case ExpiredEvent => p.(state := Open, fees := p.fees + e.fees)
        case _ => p;
    settled.(updatedAt := EffectiveTime(p, e.occurredAt))
  }

  /** The circulation records of an event. */
  function Movements(p: Position, e: PositionEvent): seq<Circulation>
  {
    var at := EffectiveTime(p, e.occurredAt);
    match e.kind
    case SplitEvent =>
      [Circulation(p.publicId, e.itemGuid, e.quantity, 0, true, Acquired, at),
       Circulation(p.publicId, e.replacementItemGuid, e.replacementQuantity, 0, true, Acquired, at)]
    case MergeEvent =>
      [Circulation(p.publicId, e.itemGuid, e.quantity, 0, true, Merged, at),
       Circulation(p.publicId, e.replacementItemGuid, e.replacementQuantity, 0, true, Acquired, at)]
    case ListedEvent => [Circulation(p.publicId, e.itemGuid, e.quantity, e.auctionId, true, ListedItem, at)]
    case RelistedEvent => [Circulation(p.publicId, e.itemGuid, e.quantity, e.auctionId, true, ListedItem, at)]
    case ExpiredEvent => [Circulation(p.publicId, e.itemGuid, e.quantity, e.auctionId, true, Delivered, at)]
    case SoldEvent => [Circulation(p.publicId, e.itemGuid, e.quantity, e.auctionId, true, Delivered, at)]
    case UsedEvent => [Circulation(p.publicId, e.itemGuid, e.quantity, 0, true, Consumed, at)]
    case TransformedEvent => [Circulation(p.publicId, e.itemGuid, e.quantity, 0, true, Transformed, at)]
    case VendoredEvent => [Circulation(p.publicId, e.itemGuid, e.quantity, 0, true, Vendored, at)]
    case LostEvent => [Circulation(p.publicId, e.itemGuid, e.quantity, 0, true, LostItem, at)]
  }

  // ----- rounding

  lemma CancelFactor(a: nat, b: nat, n: nat)
    requires n > 0 && a * n < b * n + n
    ensures a <= b
  {
    if a > b {
      TimesAtMost(n, b + 1, a);
    }
  }

  lemma PartWithinCost(cost: nat, quantity: nat, remaining: nat)
    requires 0 < remaining && quantity <= remaining
    ensures ProRata(cost, quantity, remaining) <= cost
  {
    hide ProRata;
    TimesAtMost(cost, quantity, remaining);
    CancelFactor(ProRata(cost, quantity, remaining), cost, remaining);
  }

  /** A floored part of a cost is all of it exactly with all the goods, and short of it with fewer,
      so that something always stays with what stays. */
  lemma Pieces(cost: nat, quantity: nat, remaining: nat)
    requires 0 < quantity <= remaining
    ensures ProRata(cost, quantity, remaining) <= cost
    ensures quantity == remaining ==> ProRata(cost, quantity, remaining) == cost
    ensures quantity < remaining && cost > 0 ==> ProRata(cost, quantity, remaining) < cost
  {
    hide ProRata;
    PartWithinCost(cost, quantity, remaining);
    if quantity == remaining {
      CancelFactor(cost, ProRata(cost, quantity, remaining), remaining);
    } else if cost > 0 {
      FewerIsLess(cost, quantity, remaining);
    }
  }

  lemma FewerIsLess(cost: nat, quantity: nat, remaining: nat)
    requires 0 < quantity < remaining && cost > 0
    ensures ProRata(cost, quantity, remaining) < cost
  {
    hide ProRata;
    TimesAtMost(cost, quantity + 1, remaining);
    if ProRata(cost, quantity, remaining) >= cost {
      TimesAtMost(remaining, cost, ProRata(cost, quantity, remaining));
    }
  }

  /** Flooring what leaves keeps the unit cost of what stays from falling. */
  lemma UnitCostHolds(cost: nat, quantity: nat, remaining: nat)
    requires 0 < quantity <= remaining
    ensures (cost - ProRata(cost, quantity, remaining)) * remaining >= cost * (remaining - quantity)
  {
    hide ProRata;
    var released := ProRata(cost, quantity, remaining);
    assert (cost - released) * remaining == cost * remaining - released * remaining;
    assert cost * (remaining - quantity) == cost * remaining - cost * quantity;
  }

  // ----- one event

  /** Goods leave by being sold, used, transformed, vendored or lost. */
  predicate TakesGoods(e: PositionEvent)
  {
    e.kind in {SoldEvent, UsedEvent, TransformedEvent, VendoredEvent, LostEvent}
  }

  /** What an event adds to the proceeds and to the fees of a position: a disposal both, an auction that expires
      its fees alone. */
  function Earned(e: PositionEvent): nat { if TakesGoods(e) then e.proceeds else 0 }

  function Charged(e: PositionEvent): nat { if TakesGoods(e) || e.kind.ExpiredEvent? then e.fees else 0 }

  /** What every accepted event keeps. Cost only moves from acquisition to realized, quantity only
      leaves with the goods, proceeds and fees are booked once and fit their words, and what stays open
      stays valid. */
  lemma EventKeepsLedger(p: Position, e: PositionEvent)
    requires IsValid(p) && Applicable(p, e)
    ensures var q := Applied(p, e);
            && q.acquisition + q.realizedCost == p.acquisition + p.realizedCost
            && q.remaining + (if TakesGoods(e) then e.quantity else 0) == p.remaining
            && q.initial == p.initial && q.publicId == p.publicId
            && q.proceeds == p.proceeds + Earned(e) && q.fees == p.fees + Charged(e)
            && (Earned(e) > 0 ==> q.proceeds <= MAX_UINT64) && (Charged(e) > 0 ==> q.fees <= MAX_UINT64)
            && (q.remaining > 0 ==> IsValid(q))
            && (q.remaining == 0 ==> q.acquisition == 0 && !IsOpen(q))
            && q.acquisition * p.remaining >= p.acquisition * q.remaining
  {
    hide ProRata;
    if Terminal(e.kind) {
      Pieces(p.acquisition, e.quantity, p.remaining);
      UnitCostHolds(p.acquisition, e.quantity, p.remaining);
    }
  }

  /** Where an event moves a position. Goods put up for auction are listed, each relisting counts and only so
      many are allowed; goods that come back unsold are open again, as are those that stay when others leave;
      and the last to leave closes the position, in the way it left. Splitting and merging stacks moves nothing.
      The last update moves on, to the time of the event or past the one before, while the clock lasts. */
  lemma EventMovesState(p: Position, e: PositionEvent)
    requires IsValid(p) && Applicable(p, e)
    ensures var q := Applied(p, e);
            && (e.kind in {SplitEvent, MergeEvent} ==> q == p.(updatedAt := q.updatedAt))
            && (e.kind in {ListedEvent, RelistedEvent} ==> q.state.Listed?)
            && q.relists == p.relists + (if e.kind.RelistedEvent? then 1 else 0) <= p.maxRelists
            && (e.kind.ExpiredEvent? || (TakesGoods(e) && e.quantity < p.remaining) ==> q.state.Open?)
            && (q.state.Closed? <==> TakesGoods(e) && !e.kind.LostEvent? && e.quantity == p.remaining)
            && (q.state.Lost? <==> e.kind.LostEvent? && e.quantity == p.remaining)
            && (!IsOpen(q) ==> q.closedAt == q.updatedAt)
            && (!IsOpen(q) ==> q.outcome == match e.kind
                  case SoldEvent => Sale case UsedEvent => Use case TransformedEvent => Transformation
                  case VendoredEvent => Vendor case _ => Loss)
            && (p.updatedAt < MAX_UINT64 ==> q.updatedAt == Max(e.occurredAt, p.updatedAt + 1))
            && (p.updatedAt == MAX_UINT64 ==> q.updatedAt == MAX_UINT64)
  {
    hide ProRata;
  }

  /** Events that apply name goods, as many as are held; stacks split or merged stay within the goods held; and
      the sums fit 64 bits. */
  lemma ApplicableIff(p: Position, e: PositionEvent)
    ensures Applicable(p, e) <==>
            && e.itemGuid > 0 && e.occurredAt > 0 && p.state in {Open, Listed, Closed, PositionState.Lost}
            && 0 < e.quantity <= p.remaining
            && (e.kind in {SplitEvent, MergeEvent} ==> e.replacementItemGuid > 0 && e.replacementQuantity > 0)
            && (e.kind.SplitEvent? ==> e.quantity + e.replacementQuantity <= p.remaining)
            && (e.kind.MergeEvent? ==> e.replacementQuantity <= p.remaining)
            && (e.kind.RelistedEvent? ==> p.relists < p.maxRelists)
            && (TakesGoods(e) ==> p.proceeds + e.proceeds <= MAX_UINT64)
            && (TakesGoods(e) || e.kind.ExpiredEvent? ==> p.fees + e.fees <= MAX_UINT64)
  {
  }

  // ----- any number of events

  /** The position after a list of events, where events that do not apply are turned away. */
  function After(p: Position, events: seq<PositionEvent>): Position
  {
    if events == [] then p
    else
      var q, e := After(p, events[..|events| - 1]), events[|events| - 1];
      if Applicable(q, e) then Applied(q, e) else q
  }

  /** What the events that applied did: the goods that left with them, what they brought in and what they cost. */
  datatype Flow = Flow(gone: nat, earned: nat, charged: nat)

  function FlowOf(p: Position, events: seq<PositionEvent>): Flow
  {
    if events == [] then Flow(0, 0, 0)
    else
      var q, e := After(p, events[..|events| - 1]), events[|events| - 1];
      var before := FlowOf(p, events[..|events| - 1]);
      if !Applicable(q, e) then before
      else Flow(before.gone + (if TakesGoods(e) then e.quantity else 0), before.earned + Earned(e), before.charged + Charged(e))
  }

  lemma RatioChain(a: nat, r: nat, b: nat, s: nat, c: nat, t: nat)
    requires b * r >= a * s && c * s >= b * t && s > 0
    ensures c * r >= a * t
  {
    TimesAtMost(r, b * t, c * s);
    TimesAtMost(t, a * s, b * r);
    Rearrange(r, b, t);
    Rearrange(r, c, s);
    Rearrange(t, a, s);
    CancelFactor(a * t, c * r, s);
  }

  lemma Rearrange(x: nat, y: nat, z: nat)
    ensures x * (y * z) == z * (y * x) == (y * x) * z
  {
  }

  /** The ledger of a position over any list of events: the opening cost is conserved, goods, proceeds and
      fees are accounted for, an open position stays valid with a positive cost that undervalues nothing, and
      a closed one has released exactly the rest. */
  lemma {:induction false} LedgerHolds(p: Position, events: seq<PositionEvent>)
    requires IsValid(p)
    ensures var q := After(p, events);
            && q.acquisition + q.realizedCost == p.acquisition + p.realizedCost
            && q.remaining + FlowOf(p, events).gone == p.remaining && q.initial == p.initial
            && q.proceeds == p.proceeds + FlowOf(p, events).earned && q.fees == p.fees + FlowOf(p, events).charged
            && (if q.remaining > 0 then IsValid(q) && q.acquisition >= 1
                else q.acquisition == 0 && q.realizedCost == p.acquisition + p.realizedCost && !IsOpen(q))
            && q.acquisition * p.remaining >= p.acquisition * q.remaining
  {
    if events == [] {
    } else {
      var q, e := After(p, events[..|events| - 1]), events[|events| - 1];
      LedgerHolds(p, events[..|events| - 1]);
      if Applicable(q, e) {
        EventKeepsLedger(q, e);
        hide IsValid, Applied, Applicable, TakesGoods, Earned, Charged;
        var r := Applied(q, e);
        RatioChain(p.acquisition, p.remaining, q.acquisition, q.remaining, r.acquisition, r.remaining);
      }
    }
  }

  // ----- restoring a position that is only partly backed

  /** The goods still found keep their floored pro-rata cost. */
  function PartlyBacked(p: Position, backed: uint32): Position
    requires p.remaining != 0 && backed <= p.remaining
  {
    PartWithinCost(p.acquisition, backed, p.remaining);
    var kept := ProRata(p.acquisition, backed, p.remaining);
    p.(remaining := backed, acquisition := kept, realizedCost := p.realizedCost + (p.acquisition - kept))
  }

  /** Here the rounding favours the realized side, and can leave goods without any cost. The position
      stays valid exactly when the goods found carry at least one unit of it. */
  lemma PartlyBackedIsValidIff(p: Position, backed: uint32)
    requires IsValid(p) && 0 < backed < p.remaining
    ensures var q := PartlyBacked(p, backed);
            && q.acquisition + q.realizedCost == p.acquisition + p.realizedCost
            && (IsValid(q) <==> p.acquisition * backed >= p.remaining)
  {
    hide ProRata;
    PartWithinCost(p.acquisition, backed, p.remaining);
    KeepsSomethingIff(p.acquisition, backed, p.remaining);
  }

  lemma KeepsSomethingIff(cost: nat, quantity: nat, remaining: nat)
    requires 0 < quantity <= remaining
    ensures ProRata(cost, quantity, remaining) > 0 <==> cost * quantity >= remaining
  {
    hide ProRata;
    var r := ProRata(cost, quantity, remaining);
    if r > 0 {
      TimesAtMost(remaining, 1, r);
    }
  }

  /** A position of two goods that cost one, of which one is found, comes back without a cost. */
  lemma PartlyBackedMayFail(p: Position)
    requires IsValid(p) && p.remaining == 2 && p.acquisition == 1
    ensures !IsValid(PartlyBacked(p, 1))
  {
  }
}
