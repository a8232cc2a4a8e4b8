/**
 The coordinator without its caches: each locked operation as a function of the book. What the
 operation asks of code outside the model is a parameter: the work policy's verdict, the demand
 chain on offer, and whether a cache left stale by expiry forced a reconciliation.
 */
module Steps {
  import opened Economy
  import opened Order
  import opened Gaps
  import opened Claims
  import opened Trim

  datatype Blocker =
    | NoBlocker
    | UnknownActor
    | Offline
    | NotAutonomous
    | WrongMarket
    | NoDemand
    | AffinityTooLow
    | AutonomousOnly
    | Illegal
    | Budget
    | AccountIdentityUnavailable
    | SameAccountPurchase
    | MissingLiveObject
    | MissingPath
    | MissingSkill
    | WrongPhase
    | UnsafeTransaction
    | Capacity

  datatype LeaseRequest = LeaseRequest(
    actor: uint32,
    market: uint32,
    group: Group,
    quantity: uint32,
    kind: ClaimKind,
    priority: ClaimPriority,
    buying: bool,
    work: string,
    sellerAccount: uint32,
    direct: bool,
    expiresAt: nat,
    recipe: uint32,
    output: uint32,
    personalEquipment: bool,
    personalSustenance: bool)
  {
    predicate Personal() { personalEquipment || personalSustenance }

    function Key(): GapKey { GapKey(market, group) }
  }

  /** A refusal is `recorded` when it may leave a blocker row and a chain event behind. */
  datatype LeaseResult = Granted(claim: Claim) | Refused(blocker: Blocker, recorded: bool)

  datatype Recipe = Recipe(group: Group, recipe: uint32, output: uint32, maxQuantity: uint32)

  datatype ProductionRequest = ProductionRequest(actor: uint32, market: uint32, recipes: seq<Recipe>, expiresAt: nat)

  // ----- expiry alone

  function Tick(b: Book, now: nat): Book
  {
    b.(claims := Expired(b.claims, now))
  }

  // ----- refreshed facts

  predicate ActorInvalidated(known: ActorFacts, facts: ActorFacts)
  {
    known.market != facts.market || (known.online && !facts.online) || (known.autonomous && !facts.autonomous)
  }

  function ClaimsSeenByRefresh(b: Book, facts: ActorFacts, now: nat): seq<Claim>
  {
    var released :=
      if facts.guid in b.actors && ActorInvalidated(b.actors[facts.guid], facts)
      then ActorReleased(b.claims, facts.guid, CapabilityLost, now) else b.claims;
    Expired(released, now)
  }

  /** The facts change something the totals depend on. */
  predicate RefreshMatters(b: Book, facts: ActorFacts, now: nat)
  {
    var claims := ClaimsSeenByRefresh(b, facts, now);
    || facts.guid !in b.actors || b.actors[facts.guid] != facts
    || Bridged(claims, facts) != claims
    || facts.guid in b.credits
  }

  function ActorRefreshed(b: Book, facts: ActorFacts, now: nat): Book
  {
    b.(credits := b.credits - {facts.guid},
       claims := Bridged(ClaimsSeenByRefresh(b, facts, now), facts),
       actors := b.actors[facts.guid := facts])
  }

  ghost function Reconciled(b: Book, now: nat): Book
  {
    b.(claims := Trimmed(b, now))
  }

  ghost function RefreshActor(b: Book, facts: ActorFacts, now: nat, stale: bool): Book
  {
    if facts.guid == 0 then b
    else
      var refreshed := ActorRefreshed(b, facts, now);
      if RefreshMatters(b, facts, now) || stale then Reconciled(refreshed, now) else refreshed
  }

  predicate MarketChanges(b: Book, facts: MarketFacts)
  {
    facts.market != 0 && (facts.market !in b.markets || b.markets[facts.market] != facts)
  }

  ghost function RefreshMarket(b: Book, facts: MarketFacts, now: nat): Book
  {
    if facts.market == 0 then b
    else if !MarketChanges(b, facts) then Tick(b, now)
    else Reconciled(Tick(b, now).(markets := b.markets[facts.market := facts]), now)
  }

  // ----- inputs consumed by a confirmed craft

  function Uncovered(actor: ActorFacts, group: Group): nat
  {
    Minus(DemandSum(actor.demands, group), SupplySum(actor.supplies, group))
  }

  function RaisedCredit(b: Book, guid: uint32, inputs: seq<DemandFact>, group: Group): uint32
    requires guid in b.actors
  {
    Bounded(Min(Uncovered(b.actors[guid], group), CreditOf(b.credits, guid, group) + DemandSum(inputs, group)))
  }

  predicate Raises(b: Book, guid: uint32, inputs: seq<DemandFact>, group: Group)
    requires guid in b.actors
  {
    && DemandSum(b.actors[guid].demands, group) > 0
    && RaisedCredit(b, guid, inputs, group) > CreditOf(b.credits, guid, group)
  }

  function InputGroups(inputs: seq<DemandFact>): set<Group>
  {
    set i | i in inputs :: i.group
  }

  function HeldCredits(b: Book, guid: uint32): map<Group, uint32>
  {
    if guid in b.credits then b.credits[guid] else map[]
  }

  function RaisedCredits(b: Book, guid: uint32, inputs: seq<DemandFact>): map<Group, uint32>
    requires guid in b.actors
  {
    var held := HeldCredits(b, guid);
    map g | g in held.Keys + InputGroups(inputs) && (g in held || Raises(b, guid, inputs, g)) ::
      if g in InputGroups(inputs) && Raises(b, guid, inputs, g) then RaisedCredit(b, guid, inputs, g) else held[g]
  }

  predicate ConsumptionCounts(b: Book, guid: uint32)
  {
    guid in b.actors && b.actors[guid].online && b.actors[guid].autonomous
  }

  function ConsumeInputs(b: Book, guid: uint32, inputs: seq<DemandFact>, now: nat): Book
  {
    if !ConsumptionCounts(b, guid) || RaisedCredits(b, guid, inputs) == HeldCredits(b, guid) then Tick(b, now)
    else Tick(b, now).(credits := b.credits[guid := RaisedCredits(b, guid, inputs)])
  }

  // ----- leases

  predicate IsAuctionIdentity(work: string)
  {
    && |work| > 8 && work[..8] == "auction:" && '1' <= work[8] <= '9'
    && forall i | 8 <= i < |work| :: '0' <= work[i] <= '9'
  }

  predicate LegalPersonalEquipment(r: LeaseRequest)
  {
    && r.kind.Purchase? && r.priority.Consumer? && r.buying && r.group.kind.Equipment? && r.quantity == 1
    && IsAuctionIdentity(r.work)
  }

  predicate LegalPersonalSustenance(r: LeaseRequest)
  {
    && !r.personalEquipment && r.kind.Purchase? && r.priority.Consumer? && r.buying && r.group.kind.Consumable?
    && (r.group.effectFamily == FOOD_FAMILY || r.group.effectFamily == DRINK_FAMILY)
    && r.quantity <= SUSTENANCE_CARRYING_BUDGET && IsAuctionIdentity(r.work)
  }

  predicate LeasedPurchaseOf(c: Claim, market: uint32, work: string)
  {
    c.terms.kind.Purchase? && c.state.Leased? && c.terms.market == market && c.terms.work == work
  }

  /** The purchase would double a reservation of which at least one is personal. */
  predicate DoublesPurchase(claims: seq<Claim>, r: LeaseRequest)
  {
    r.kind.Purchase? &&
    exists c | c in claims :: LeasedPurchaseOf(c, r.market, r.work) && (r.Personal() || c.Personal())
  }

  function PersonalLeases(claims: seq<Claim>): nat
  {
    if claims == [] then 0
    else
      var last := claims[|claims| - 1];
      PersonalLeases(claims[..|claims| - 1]) + if last.Personal() && last.state.Leased? then 1 else 0
  }

  /** The checks before any quantity is looked at, in order. */
  function Screen(b: Book, r: LeaseRequest, now: nat, verdict: Blocker): Option<LeaseResult>
  {
    if r.actor !in b.actors then Some(Refused(UnknownActor, true))
    else
      var actor := b.actors[r.actor];
      if !actor.online then Some(Refused(Offline, true))
      else if !actor.autonomous && !r.direct then Some(Refused(NotAutonomous, true))
      else if r.market == 0 || actor.market != r.market then Some(Refused(WrongMarket, true))
      else if r.quantity == 0 || r.work == "" || r.expiresAt == 0 || r.expiresAt <= now then Some(Refused(Illegal, true))
      else if r.kind.Purchase? && (actor.account == 0 || r.sellerAccount == 0)
      then Some(Refused(AccountIdentityUnavailable, true))
      else if r.personalEquipment && !LegalPersonalEquipment(r) then Some(Refused(Illegal, false))
      else if r.personalSustenance && !LegalPersonalSustenance(r) then Some(Refused(Illegal, false))
      else if verdict != NoBlocker then Some(Refused(verdict, true))
      else if DoublesPurchase(b.claims, r) then Some(Refused(Capacity, false))
      else if r.Personal() && PersonalLeases(b.claims) >= CHAIN_CAPACITY then Some(Refused(Capacity, false))
      else None
  }

  function NewClaim(leaseId: nat, r: LeaseRequest, chain: Option<nat>, quantity: uint32, now: nat): Claim
  {
    var produces := !r.kind.Purchase?;
    var terms := Terms(leaseId, chain, r.actor, r.market, r.group, r.kind, r.priority, r.direct, r.work, now,
                       if produces then r.recipe else 0, if produces then r.output else 0,
                       r.personalEquipment, r.personalSustenance);
    Claim(terms, quantity, 0, 0, Leased, Committed, r.expiresAt, 0)
  }

  function Grant(b: Book, r: LeaseRequest, chain: Option<nat>, quantity: uint32, now: nat): (Book, LeaseResult)
  {
    var claim := NewClaim(b.nextLeaseId, r, chain, quantity, now);
    (b.(claims := b.claims + [claim], nextLeaseId := b.nextLeaseId + 1), Granted(claim))
  }

  function GrantUpTo(b: Book, r: LeaseRequest, chain: Option<nat>, room: nat, now: nat): (Book, LeaseResult)
  {
    if room == 0 then (b, Refused(NoDemand, true))
    else Grant(b, r, chain, Bounded(Min(r.quantity, room)), now)
  }

  ghost function LeaseSpeculation(b: Book, r: LeaseRequest, chain: Option<nat>, now: nat): (Book, LeaseResult)
  {
    var t := TotalsAt(b, r.Key());
    GrantUpTo(b, r, chain, Minus(t.auction, Max(PurchaseNeed(t), t.purchase) + t.speculation), now)
  }

  function SpeculationInTheWay(t: GapTotals): bool
  {
    Minus(t.auction, t.purchase + t.speculation) < Minus(PurchaseNeed(t), t.purchase) && t.speculation > 0
  }

  ghost function LeaseNeededPurchase(b: Book, r: LeaseRequest, chain: Option<nat>, now: nat): (Book, LeaseResult)
  {
    var t := TotalsAt(b, r.Key());
    var unclaimed := Minus(PurchaseNeed(t), t.purchase);
    if SpeculationInTheWay(t) then
      var cleared := b.(claims := SpeculationReleased(b.claims, r.Key(), now));
      var u := TotalsAt(cleared, r.Key());
      GrantUpTo(cleared, r, chain, Min(unclaimed, Minus(u.auction, u.purchase)), now)
    else GrantUpTo(b, r, chain, Min(unclaimed, Minus(t.auction, t.purchase + t.speculation)), now)
  }

  ghost function LeaseProduction(b: Book, r: LeaseRequest, chain: Option<nat>, now: nat): (Book, LeaseResult)
  {
    var room := UnclaimedNeed(TotalsAt(b, r.Key()));
    if room == 0 && !r.priority.Speculation? then
      var cleared := b.(claims := SpeculationReleased(b.claims, r.Key(), now));
      GrantUpTo(cleared, r, chain, UnclaimedNeed(TotalsAt(cleared, r.Key())), now)
    else GrantUpTo(b, r, chain, room, now)
  }

  ghost function LeaseShared(b: Book, r: LeaseRequest, chain: Option<nat>, now: nat): (Book, LeaseResult)
  {
    if chain.None? && !r.priority.Speculation? then (b, Refused(Capacity, true))
    else if !r.kind.Purchase? then LeaseProduction(b, r, chain, now)
    else if r.priority.Speculation? then LeaseSpeculation(b, r, chain, now)
    else LeaseNeededPurchase(b, r, chain, now)
  }

  /** A request answered once the book is free of overdue claims. */
  ghost function Answered(b: Book, r: LeaseRequest, now: nat, verdict: Blocker, chain: Option<nat>): (Book, LeaseResult)
  {
    match Screen(b, r, now, verdict)
    case Some(refusal) => (b, refusal)
    case None =>
      if r.Personal() then Grant(b, r, None, r.quantity, now)
      else LeaseShared(b, r, chain, now)
  }

  ghost function Lease(b: Book, r: LeaseRequest, now: nat, verdict: Blocker, chain: Option<nat>): (Book, LeaseResult)
  {
    Answered(Tick(b, now), r, now, verdict, chain)
  }

  // ----- an actor's production claims, renewed or given up

  predicate ProductionOf(c: Claim, actor: uint32)
  {
    c.terms.actor == actor && c.terms.kind.Production? && c.state.Leased?
  }

  predicate StillAvailable(b: Book, r: ProductionRequest, c: Claim)
  {
    && r.actor in b.actors
    && var actor := b.actors[r.actor];
    && actor.online && actor.autonomous && actor.market == r.market && c.terms.market == r.market
    && c.terms.recipe in actor.recipes
    && exists recipe | recipe in r.recipes ::
         recipe.recipe != 0 && recipe.output != 0 &&
         recipe.group == c.terms.group && recipe.recipe == c.terms.recipe && recipe.output == c.terms.output
  }

  predicate Renewable(b: Book, r: ProductionRequest, c: Claim)
  {
    ProductionOf(c, r.actor) && StillAvailable(b, r, c)
  }

  /** The first claim the actor can keep working on. */
  function FirstRenewable(b: Book, r: ProductionRequest, n: nat): (i: nat)
    requires n <= |b.claims|
    ensures i <= n
    ensures i < n ==> Renewable(b, r, b.claims[i])
    ensures forall j | 0 <= j < i :: !Renewable(b, r, b.claims[j])
  {
    if n == 0 then 0
    else
      var i := FirstRenewable(b, r, n - 1);
      if i < n - 1 then i else if Renewable(b, r, b.claims[n - 1]) then n - 1 else n
  }

  function RenewOne(b: Book, r: ProductionRequest, i: nat, now: nat): Claim
    requires i < |b.claims|
  {
    var c := b.claims[i];
    if !ProductionOf(c, r.actor) then c
    else if i == FirstRenewable(b, r, |b.claims|) then c.(expiresAt := r.expiresAt)
    else Settle(c, if StillAvailable(b, r, c) then NeedChanged else CapabilityLost, c.committed, now)
  }

  function Renewed(b: Book, r: ProductionRequest, now: nat): seq<Claim>
  {
    seq(|b.claims|, i requires 0 <= i < |b.claims| => RenewOne(b, r, i, now))
  }

  predicate ValidProductionRequest(r: ProductionRequest, now: nat)
  {
    r.actor != 0 && r.market != 0 && r.expiresAt > now
  }

  function RenewProduction(b: Book, r: ProductionRequest, now: nat): Book
  {
    if !ValidProductionRequest(r, now) then b
    else Tick(b, now).(claims := Renewed(Tick(b, now), r, now))
  }

  // ----- progress reports

  function LeaseIndex(claims: seq<Claim>, leaseId: nat): (i: nat)
    ensures i <= |claims|
    ensures i < |claims| ==> claims[i].terms.leaseId == leaseId
    ensures forall j | 0 <= j < i :: claims[j].terms.leaseId != leaseId
  {
    if claims == [] then 0
    else
      var n := |claims| - 1;
      var i := LeaseIndex(claims[..n], leaseId);
      if i < n then i else if claims[n].terms.leaseId == leaseId then n else n + 1
  }

  function ProducedTotal(c: Claim, produced: uint32): uint32
  {
    Bounded(Min(c.quantity, c.committed + produced))
  }

  predicate OutputCounts(b: Book, leaseId: nat, produced: uint32)
  {
    var i := LeaseIndex(b.claims, leaseId);
    produced != 0 && i < |b.claims| && b.claims[i].terms.kind.Production? && b.claims[i].state.Leased?
  }

  function RecordOutput(b: Book, leaseId: nat, produced: uint32, now: nat): Book
  {
    var ticked := Tick(b, now);
    if !OutputCounts(ticked, leaseId, produced) then ticked
    else
      var i := LeaseIndex(ticked.claims, leaseId);
      var c := ticked.claims[i];
      var total := ProducedTotal(c, produced);
      var outcome := if total >= c.quantity then Outcome.Completed else Committed;
      ticked.(claims := ticked.claims[i := Settle(c, outcome, total, now)])
  }

  function RecordOutcome(b: Book, leaseId: nat, outcome: Outcome, committed: uint32, now: nat): Book
  {
    var ticked := Tick(b, now);
    var i := LeaseIndex(ticked.claims, leaseId);
    if i == |ticked.claims| || !ticked.claims[i].state.Leased? then ticked
    else ticked.(claims := ticked.claims[i := Settle(ticked.claims[i], outcome, committed, now)])
  }

  function InvalidateActor(b: Book, guid: uint32, outcome: Outcome, now: nat): Book
  {
    b.(credits := b.credits - {guid}, claims := ActorReleased(b.claims, guid, outcome, now))
  }

  // ----- runs

  datatype Call =
    | RefreshActorCall(facts: ActorFacts, now: nat, stale: bool)
    | RefreshMarketCall(market: MarketFacts, now: nat)
    | ConsumeInputsCall(guid: uint32, inputs: seq<DemandFact>, now: nat)
    | LeaseCall(request: LeaseRequest, now: nat, verdict: Blocker, chain: Option<nat>)
    | RenewProductionCall(production: ProductionRequest, now: nat)
    | RecordOutputCall(leaseId: nat, produced: uint32, now: nat)
    | RecordOutcomeCall(leaseId: nat, outcome: Outcome, committed: uint32, now: nat)
    | InvalidateActorCall(guid: uint32, outcome: Outcome, now: nat)
    | ExpireCall(now: nat)

  ghost function Step(b: Book, call: Call): Book
  {
    match call
    case RefreshActorCall(facts, now, stale) => RefreshActor(b, facts, now, stale)
    case RefreshMarketCall(facts, now) => RefreshMarket(b, facts, now)
    case ConsumeInputsCall(guid, inputs, now) => ConsumeInputs(b, guid, inputs, now)
    case LeaseCall(request, now, verdict, chain) => Lease(b, request, now, verdict, chain).0
    case RenewProductionCall(request, now) => RenewProduction(b, request, now)
    case RecordOutputCall(leaseId, produced, now) => RecordOutput(b, leaseId, produced, now)
    case RecordOutcomeCall(leaseId, outcome, committed, now) => RecordOutcome(b, leaseId, outcome, committed, now)
    case InvalidateActorCall(guid, outcome, now) => InvalidateActor(b, guid, outcome, now)
    case ExpireCall(now) => Tick(b, now)
  }

  ghost function Run(b: Book, calls: seq<Call>): Book
  {
    if calls == [] then b else Step(Run(b, calls[..|calls| - 1]), calls[|calls| - 1])
  }
}
