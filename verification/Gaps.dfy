/**
 What the coordinator knows, and the gap totals that knowledge implies. `TotalsAt` is the
 definition, key by key, of the figures the coordinator keeps in its lazily rebuilt cache.
 */
module Gaps {
  import opened Economy
  import opened Order

  datatype GapTotals = GapTotals(
    demand: nat,
    supply: nat,
    claimed: nat,
    nonAuction: nat,
    auction: nat,
    purchase: nat,
    speculation: nat)

  function Zero(): GapTotals { GapTotals(0, 0, 0, 0, 0, 0, 0) }

  function Plus(a: GapTotals, b: GapTotals): GapTotals {
    GapTotals(a.demand + b.demand, a.supply + b.supply, a.claimed + b.claimed, a.nonAuction + b.nonAuction,
              a.auction + b.auction, a.purchase + b.purchase, a.speculation + b.speculation)
  }

  /** Everything gap totals depend on, and the lease counter. */
  datatype Book = Book(
    actors: map<uint32, ActorFacts>,
    markets: map<uint32, MarketFacts>,
    credits: map<uint32, map<Group, uint32>>,
    claims: seq<Claim>,
    nextLeaseId: nat)

  function EmptyBook(): Book { Book(map[], map[], map[], [], 1) }

  function DemandSum(demands: seq<DemandFact>, group: Group): nat
  {
    if demands == [] then 0
    else
      var last := demands[|demands| - 1];
      DemandSum(demands[..|demands| - 1], group) + if last.group == group then last.quantity else 0
  }

  function SupplySum(supplies: seq<SupplyFact>, group: Group): nat
  {
    if supplies == [] then 0
    else
      var last := supplies[|supplies| - 1];
      SupplySum(supplies[..|supplies| - 1], group) + if last.group == group then last.quantity else 0
  }

  /** What one claim adds to the totals of a key. Personal claims add nothing. */
  function ClaimPart(c: Claim, k: GapKey): GapTotals
  {
    if c.Personal() || c.Key() != k then Zero()
    else if c.terms.kind.Purchase? then
      if !c.state.Leased? then Zero()
      else if c.terms.priority.Speculation? then Zero().(speculation := c.quantity)
      else Zero().(purchase := c.quantity)
    else if c.state.Leased? then
      Zero().(supply := c.committed, claimed := Minus(c.quantity, c.committed), nonAuction := c.quantity)
    else if c.state.Released? then
      Zero().(supply := c.bridged, nonAuction := c.bridged)
    else Zero()
  }

  function Total(parts: seq<GapTotals>): GapTotals
  {
    if parts == [] then Zero() else Plus(Total(parts[..|parts| - 1]), parts[|parts| - 1])
  }

  function ClaimParts(claims: seq<Claim>, k: GapKey): seq<GapTotals>
  {
    seq(|claims|, i requires 0 <= i < |claims| => ClaimPart(claims[i], k))
  }

  function ClaimTotals(claims: seq<Claim>, k: GapKey): GapTotals
  {
    Total(ClaimParts(claims, k))
  }

  function CreditOf(credits: map<uint32, map<Group, uint32>>, guid: uint32, group: Group): uint32
  {
    if guid in credits && group in credits[guid] then credits[guid][group] else 0
  }

  /** Demand an actor adds to a key: its published demand less the inputs it has already used. */
  function ActorDemand(guid: uint32, actor: ActorFacts, credits: map<uint32, map<Group, uint32>>, k: GapKey): nat
  {
    if actor.online && actor.autonomous && actor.market == k.market
    then Minus(DemandSum(actor.demands, k.group), CreditOf(credits, guid, k.group))
    else 0
  }

  function ActorPart(guid: uint32, actor: ActorFacts, credits: map<uint32, map<Group, uint32>>, k: GapKey): GapTotals
  {
    var supply := if actor.market == k.market then SupplySum(actor.supplies, k.group) else 0;
    Zero().(demand := ActorDemand(guid, actor, credits, k), supply := supply, nonAuction := supply)
  }

  function ActorTotals(actors: map<uint32, ActorFacts>, credits: map<uint32, map<Group, uint32>>,
                       guids: seq<uint32>, k: GapKey): GapTotals
    requires forall g | g in guids :: g in actors
  {
    if guids == [] then Zero()
    else
      var g := guids[|guids| - 1];
      Plus(ActorTotals(actors, credits, guids[..|guids| - 1], k), ActorPart(g, actors[g], credits, k))
  }

  function MarketPart(markets: map<uint32, MarketFacts>, k: GapKey): GapTotals
  {
    var supply := if k.market in markets then SupplySum(markets[k.market].supplies, k.group) else 0;
    Zero().(supply := supply, auction := supply)
  }

  /** Demand and supply that do not come from claims. */
  ghost function FactTotals(b: Book, k: GapKey): GapTotals
  {
    Plus(ActorTotals(b.actors, b.credits, AscendingGuids(b.actors.Keys), k), MarketPart(b.markets, k))
  }

  ghost function TotalsAt(b: Book, k: GapKey): GapTotals
  {
    Plus(FactTotals(b, k), ClaimTotals(b.claims, k))
  }

  function ActorKeys(actor: ActorFacts): set<GapKey>
  {
    (if actor.online && actor.autonomous then set d | d in actor.demands :: GapKey(actor.market, d.group) else {}) +
    (set s | s in actor.supplies :: GapKey(actor.market, s.group))
  }

  function MarketKeys(market: uint32, facts: MarketFacts): set<GapKey>
  {
    set s | s in facts.supplies :: GapKey(market, s.group)
  }

  function ClaimKeys(claims: seq<Claim>): set<GapKey>
  {
    set c | c in claims && !c.Personal() :: c.Key()
  }

  function ActorsKeys(actors: map<uint32, ActorFacts>): set<GapKey>
  {
    set g, k | g in actors && k in ActorKeys(actors[g]) :: k
  }

  function MarketsKeys(markets: map<uint32, MarketFacts>): set<GapKey>
  {
    set m, k | m in markets && k in MarketKeys(m, markets[m]) :: k
  }

  /** The keys the cache has a row for. */
  function Touched(b: Book): set<GapKey>
  {
    ActorsKeys(b.actors) + MarketsKeys(b.markets) + ClaimKeys(b.claims)
  }

  ghost function FreshGaps(b: Book): map<GapKey, GapTotals>
  {
    map k | k in Touched(b) :: TotalsAt(b, k)
  }

  /** The actors with demand left at a key, in the order given. */
  function Consumers(actors: map<uint32, ActorFacts>, credits: map<uint32, map<Group, uint32>>,
                     guids: seq<uint32>, k: GapKey): seq<uint32>
    requires forall g | g in guids :: g in actors
  {
    if guids == [] then []
    else
      var g := guids[|guids| - 1];
      Consumers(actors, credits, guids[..|guids| - 1], k) + if ActorDemand(g, actors[g], credits, k) > 0 then [g] else []
  }

  ghost function ConsumersOf(b: Book, k: GapKey): seq<uint32>
  {
    Consumers(b.actors, b.credits, AscendingGuids(b.actors.Keys), k)
  }

  ghost function FreshConsumers(b: Book): map<GapKey, seq<uint32>>
  {
    map k | k in Touched(b) && ConsumersOf(b, k) != [] :: ConsumersOf(b, k)
  }

  function PurchaseNeed(t: GapTotals): nat { Minus(t.demand, t.nonAuction) }

  function UnclaimedNeed(t: GapTotals): nat { Minus(t.demand, t.supply + t.claimed) }

  // ----- sums over claims

  lemma PlusSwaps(a: GapTotals, b: GapTotals, c: GapTotals)
    ensures Plus(Plus(a, b), c) == Plus(Plus(a, c), b)
  {
  }

  lemma {:induction false} TotalUpdate(parts: seq<GapTotals>, i: nat, p: GapTotals)
    requires i < |parts|
    ensures Plus(Total(parts[i := p]), parts[i]) == Plus(Total(parts), p)
  {
    hide Plus;
    var n := |parts| - 1;
    if i == n {
      assert parts[i := p][..n] == parts[..n];
      PlusSwaps(Total(parts[..n]), p, parts[n]);
    } else {
      assert parts[i := p][..n] == parts[..n][i := p];
      TotalUpdate(parts[..n], i, p);
      PlusSwaps(Total(parts[..n][i := p]), parts[n], parts[i]);
      PlusSwaps(Total(parts[..n]), p, parts[n]);
    }
  }

  lemma ClaimTotalsUpdate(claims: seq<Claim>, i: nat, c: Claim, k: GapKey)
    requires i < |claims|
    ensures Plus(ClaimTotals(claims[i := c], k), ClaimPart(claims[i], k)) ==
            Plus(ClaimTotals(claims, k), ClaimPart(c, k))
  {
    assert ClaimParts(claims[i := c], k) == ClaimParts(claims, k)[i := ClaimPart(c, k)];
    TotalUpdate(ClaimParts(claims, k), i, ClaimPart(c, k));
  }

  lemma ClaimTotalsAppend(claims: seq<Claim>, c: Claim, k: GapKey)
    ensures ClaimTotals(claims + [c], k) == Plus(ClaimTotals(claims, k), ClaimPart(c, k))
  {
    var parts := ClaimParts(claims + [c], k);
    assert parts[..|claims|] == ClaimParts(claims, k);
  }

  lemma ClaimTotalsLast(claims: seq<Claim>, k: GapKey)
    requires claims != []
    ensures ClaimTotals(claims, k) ==
            Plus(ClaimTotals(claims[..|claims| - 1], k), ClaimPart(claims[|claims| - 1], k))
  {
    ClaimTotalsAppend(claims[..|claims| - 1], claims[|claims| - 1], k);
    assert claims[..|claims| - 1] + [claims[|claims| - 1]] == claims;
  }

  /** Later totals promise no more than earlier ones, and back no less of what they promise. */
  predicate Shrinks(before: GapTotals, after: GapTotals)
  {
    && after.supply + after.claimed <= before.supply + before.claimed
    && after.claimed <= before.claimed
    && after.purchase <= before.purchase
    && after.speculation <= before.speculation
    && after.demand == before.demand
    && after.auction == before.auction
  }

  lemma {:induction false} PartwiseShrink(before: seq<GapTotals>, after: seq<GapTotals>)
    requires |before| == |after|
    requires forall i | 0 <= i < |before| :: Shrinks(before[i], after[i])
    ensures Shrinks(Total(before), Total(after))
  {
    if before != [] {
      PartwiseShrink(before[..|before| - 1], after[..|before| - 1]);
    }
  }

  lemma {:induction false} ZeroParts(parts: seq<GapTotals>)
    ensures (forall p | p in parts :: p.speculation == 0) ==> Total(parts).speculation == 0
    ensures (forall p | p in parts :: p.purchase == 0) ==> Total(parts).purchase == 0
    ensures (forall p | p in parts :: p.claimed == 0) ==> Total(parts).claimed == 0
  {
    if parts != [] {
      ZeroParts(parts[..|parts| - 1]);
    }
  }

  lemma PlusZero(t: GapTotals)
    ensures Plus(t, Zero()) == t && Plus(Zero(), t) == t
  {
  }

  // ----- keys nothing mentions

  predicate IsZero(t: GapTotals)
  {
    t == Zero()
  }

  lemma {:induction false} UnnamedDemand(demands: seq<DemandFact>, group: Group)
    requires forall d | d in demands :: d.group != group
    ensures DemandSum(demands, group) == 0
  {
    if demands != [] {
      UnnamedDemand(demands[..|demands| - 1], group);
    }
  }

  lemma {:induction false} UnnamedSupply(supplies: seq<SupplyFact>, group: Group)
    requires forall s | s in supplies :: s.group != group
    ensures SupplySum(supplies, group) == 0
  {
    if supplies != [] {
      UnnamedSupply(supplies[..|supplies| - 1], group);
    }
  }

  lemma ActorPartZero(guid: uint32, actor: ActorFacts, credits: map<uint32, map<Group, uint32>>, k: GapKey)
    requires k !in ActorKeys(actor)
    ensures IsZero(ActorPart(guid, actor, credits, k))
  {
    if actor.market == k.market {
      forall s | s in actor.supplies
        ensures s.group != k.group
      {
        assert GapKey(actor.market, s.group) in ActorKeys(actor);
      }
      UnnamedSupply(actor.supplies, k.group);
      if actor.online && actor.autonomous {
        forall d | d in actor.demands
          ensures d.group != k.group
        {
          assert GapKey(actor.market, d.group) in ActorKeys(actor);
        }
        UnnamedDemand(actor.demands, k.group);
      }
    }
  }

  lemma {:induction false} ActorTotalsZero(actors: map<uint32, ActorFacts>, credits: map<uint32, map<Group, uint32>>,
                                           guids: seq<uint32>, k: GapKey)
    requires forall g | g in guids :: g in actors
    requires k !in ActorsKeys(actors)
    ensures IsZero(ActorTotals(actors, credits, guids, k))
  {
    if guids == [] {
    } else {
      hide ActorPart, ActorKeys, IsZero, Plus;
      var n := |guids| - 1;
      ActorTotalsZero(actors, credits, guids[..n], k);
      ActorPartZero(guids[n], actors[guids[n]], credits, k);
      ZeroPlusZero(ActorTotals(actors, credits, guids[..n], k), ActorPart(guids[n], actors[guids[n]], credits, k));
    }
  }

  lemma MarketPartZero(markets: map<uint32, MarketFacts>, k: GapKey)
    requires k !in MarketsKeys(markets)
    ensures IsZero(MarketPart(markets, k))
  {
    if k.market in markets {
      forall s | s in markets[k.market].supplies
        ensures s.group != k.group
      {
        assert GapKey(k.market, s.group) in MarketKeys(k.market, markets[k.market]);
      }
      UnnamedSupply(markets[k.market].supplies, k.group);
    }
  }

  lemma ZeroPlusZero(a: GapTotals, b: GapTotals)
    requires IsZero(a) && IsZero(b)
    ensures IsZero(Plus(a, b))
  {
    hide Plus, Zero;
    PlusZero(Zero());
  }

  lemma {:induction false} AllZero(parts: seq<GapTotals>)
    requires forall i | 0 <= i < |parts| :: IsZero(parts[i])
    ensures IsZero(Total(parts))
  {
    if parts == [] {
    } else {
      hide IsZero, Plus;
      AllZero(parts[..|parts| - 1]);
      ZeroPlusZero(Total(parts[..|parts| - 1]), parts[|parts| - 1]);
    }
  }

  lemma ClaimTotalsZero(claims: seq<Claim>, k: GapKey)
    requires k !in ClaimKeys(claims)
    ensures IsZero(ClaimTotals(claims, k))
  {
    forall i | 0 <= i < |claims|
      ensures IsZero(ClaimPart(claims[i], k))
    {
      assert claims[i] in claims;
    }
    AllZero(ClaimParts(claims, k));
  }

  /** A key without a row has no demand, no supply and no claims. */
  lemma UntouchedIsZero(b: Book, k: GapKey)
    requires k !in Touched(b)
    ensures TotalsAt(b, k) == Zero()
  {
    ActorTotalsZero(b.actors, b.credits, AscendingGuids(b.actors.Keys), k);
    MarketPartZero(b.markets, k);
    ClaimTotalsZero(b.claims, k);
    hide ActorTotals, MarketPart, ClaimTotals, AscendingGuids;
  }
}
