/**
 The loops that rebuild the gap cache, each proved to add to every row exactly what the
 definitions in `Gaps` say.
 */
module Tally {
  import opened Economy
  import opened Order
  import opened Gaps
  import opened Claims
  import opened Steps

  /** A row of the table under construction; rows not yet present read as zero. */
  function At(gaps: map<GapKey, GapTotals>, k: GapKey): GapTotals
  {
    if k in gaps then gaps[k] else Zero()
  }

  /** Adds to one row, creating it if need be. */
  function Bump(gaps: map<GapKey, GapTotals>, key: GapKey, part: GapTotals): (r: map<GapKey, GapTotals>)
    ensures r.Keys == gaps.Keys + {key}
  {
    gaps[key := Plus(At(gaps, key), part)]
  }

  lemma BumpAt(gaps: map<GapKey, GapTotals>, key: GapKey, part: GapTotals, k: GapKey)
    ensures At(Bump(gaps, key, part), k) == if k == key then Plus(At(gaps, k), part) else At(gaps, k)
  {
  }

  function CreditIn(credits: map<Group, uint32>, group: Group): uint32
  {
    if group in credits then credits[group] else 0
  }

  function DemandKeys(market: uint32, demands: seq<DemandFact>): set<GapKey>
  {
    set d | d in demands :: GapKey(market, d.group)
  }

  function SupplyKeys(market: uint32, supplies: seq<SupplyFact>): set<GapKey>
  {
    set s | s in supplies :: GapKey(market, s.group)
  }

  /** Demand at a key once credits have been taken off fact by fact. */
  function DemandPart(market: uint32, demands: seq<DemandFact>, credits: map<Group, uint32>, k: GapKey): nat
  {
    if market == k.market then Minus(DemandSum(demands, k.group), CreditIn(credits, k.group)) else 0
  }

  lemma DemandSumNext(demands: seq<DemandFact>, i: nat, group: Group)
    requires i < |demands|
    ensures DemandSum(demands[..i + 1], group) ==
            DemandSum(demands[..i], group) + if demands[i].group == group then demands[i].quantity else 0
  {
    assert demands[..i + 1][..i] == demands[..i];
  }

  /** One demand fact: what is left of its credit decides how much of it still counts. */
  lemma DemandPartNext(market: uint32, demands: seq<DemandFact>, i: nat, credits: map<Group, uint32>, left: uint32, k: GapKey)
    requires i < |demands|
    requires left == Minus(CreditIn(credits, demands[i].group), DemandSum(demands[..i], demands[i].group))
    ensures DemandPart(market, demands[..i + 1], credits, k) == DemandPart(market, demands[..i], credits, k) +
              if k == GapKey(market, demands[i].group) then demands[i].quantity - Min(left, demands[i].quantity) else 0
  {
    DemandSumNext(demands, i, k.group);
  }

  lemma SupplySumNext(supplies: seq<SupplyFact>, i: nat, group: Group)
    requires i < |supplies|
    ensures SupplySum(supplies[..i + 1], group) ==
            SupplySum(supplies[..i], group) + if supplies[i].group == group then supplies[i].quantity else 0
  {
    assert supplies[..i + 1][..i] == supplies[..i];
  }

  /** A row and its definition move together. */
  lemma RowNext(start: GapTotals, row: GapTotals, before: GapTotals, row': GapTotals, after: GapTotals, part: GapTotals, hit: bool)
    requires row == Plus(start, before)
    requires row' == if hit then Plus(row, part) else row
    requires after == if hit then Plus(before, part) else before
    ensures row' == Plus(start, after)
  {
  }

  // ----- demands

  function DemandTotals(market: uint32, demands: seq<DemandFact>, credits: map<Group, uint32>, k: GapKey): GapTotals
  {
    Zero().(demand := DemandPart(market, demands, credits, k))
  }

  /** The table and the running credits after a number of demand facts. */
  ghost predicate DemandsTallied(gaps: map<GapKey, GapTotals>, r: map<GapKey, GapTotals>, open: set<GapKey>,
                                 left: map<Group, uint32>, market: uint32, demands: seq<DemandFact>, credits: map<Group, uint32>)
  {
    && r.Keys == gaps.Keys + DemandKeys(market, demands)
    && (forall k :: At(r, k) == Plus(At(gaps, k), DemandTotals(market, demands, credits, k)))
    && (forall k :: k in open <==> DemandPart(market, demands, credits, k) > 0)
    && (forall g :: CreditIn(left, g) == Minus(CreditIn(credits, g), DemandSum(demands, g)))
  }

  lemma DemandTotalsNext(market: uint32, demands: seq<DemandFact>, i: nat, credits: map<Group, uint32>, left: uint32, k: GapKey)
    requires i < |demands|
    requires left == Minus(CreditIn(credits, demands[i].group), DemandSum(demands[..i], demands[i].group))
    ensures var part := Zero().(demand := demands[i].quantity - Min(left, demands[i].quantity));
            var before := DemandTotals(market, demands[..i], credits, k);
            DemandTotals(market, demands[..i + 1], credits, k) ==
            if k == GapKey(market, demands[i].group) then Plus(before, part) else before
  {
    DemandPartNext(market, demands, i, credits, left, k);
    hide DemandPart;
  }

  lemma DemandRowNext(gaps: map<GapKey, GapTotals>, r: map<GapKey, GapTotals>, market: uint32, demands: seq<DemandFact>,
                      credits: map<Group, uint32>, i: nat, left: uint32, remaining: uint32, k: GapKey)
    requires i < |demands|
    requires left == Minus(CreditIn(credits, demands[i].group), DemandSum(demands[..i], demands[i].group))
    requires remaining == demands[i].quantity - Min(left, demands[i].quantity)
    requires At(r, k) == Plus(At(gaps, k), DemandTotals(market, demands[..i], credits, k))
    ensures At(Bump(r, GapKey(market, demands[i].group), Zero().(demand := remaining)), k) ==
            Plus(At(gaps, k), DemandTotals(market, demands[..i + 1], credits, k))
  {
    hide DemandTotals, DemandSum, At, Plus, Bump, CreditIn;
    var key, part := GapKey(market, demands[i].group), Zero().(demand := remaining);
    DemandTotalsNext(market, demands, i, credits, left, k);
    BumpAt(r, key, part, k);
    RowNext(At(gaps, k), At(r, k), DemandTotals(market, demands[..i], credits, k), At(Bump(r, key, part), k),
            DemandTotals(market, demands[..i + 1], credits, k), part, k == key);
  }

  lemma DemandTalliedNext(gaps: map<GapKey, GapTotals>, r: map<GapKey, GapTotals>, open: set<GapKey>, left: map<Group, uint32>,
                          market: uint32, demands: seq<DemandFact>, credits: map<Group, uint32>, i: nat,
                          key: GapKey, remaining: uint32, spent: uint32)
    requires i < |demands| && DemandsTallied(gaps, r, open, left, market, demands[..i], credits)
    requires key == GapKey(market, demands[i].group)
    requires remaining == demands[i].quantity - Min(CreditIn(left, demands[i].group), demands[i].quantity)
    requires spent == CreditIn(left, demands[i].group) - Min(CreditIn(left, demands[i].group), demands[i].quantity)
    ensures DemandsTallied(gaps, Bump(r, key, Zero().(demand := remaining)), if remaining > 0 then open + {key} else open,
                           left[demands[i].group := spent], market, demands[..i + 1], credits)
  {
    hide DemandTotals, DemandPart, DemandSum, DemandKeys, At, Plus, Zero, Bump;
    var demand := demands[i];
    var credit := CreditIn(left, demand.group);
    var bumped := Bump(r, key, Zero().(demand := remaining));
    var opened_ := if remaining > 0 then open + {key} else open;
    assert credit == Minus(CreditIn(credits, demand.group), DemandSum(demands[..i], demand.group));
    forall k
      ensures At(bumped, k) == Plus(At(gaps, k), DemandTotals(market, demands[..i + 1], credits, k))
    {
      DemandRowNext(gaps, r, market, demands, credits, i, credit, remaining, k);
    }
    forall k
      ensures k in opened_ <==> DemandPart(market, demands[..i + 1], credits, k) > 0
    {
      DemandPartNext(market, demands, i, credits, credit, k);
    }
    forall g
      ensures CreditIn(left[demand.group := spent], g) == Minus(CreditIn(credits, g), DemandSum(demands[..i + 1], g))
    {
      DemandSumNext(demands, i, g);
    }
    DemandKeysNext(market, demands, i);
  }

  lemma DemandKeysNext(market: uint32, demands: seq<DemandFact>, i: nat)
    requires i < |demands|
    ensures DemandKeys(market, demands[..i + 1]) == DemandKeys(market, demands[..i]) + {GapKey(market, demands[i].group)}
  {
    assert demands[..i + 1] == demands[..i] + [demands[i]];
  }

  /** Adds an actor's demands, spending its credits as it goes; `open` collects the keys at which
      some demand is left. */
  method TallyDemands(gaps: map<GapKey, GapTotals>, market: uint32, demands: seq<DemandFact>, credits: map<Group, uint32>)
    returns (r: map<GapKey, GapTotals>, open: set<GapKey>)
    ensures r.Keys == gaps.Keys + DemandKeys(market, demands)
    ensures forall k :: At(r, k) == Plus(At(gaps, k), DemandTotals(market, demands, credits, k))
    ensures forall k :: k in open <==> DemandPart(market, demands, credits, k) > 0
  {
    r, open := gaps, {};
    var left: map<Group, uint32> := credits;
    var i := 0;
    DemandsTalliedNone(gaps, market, credits);
    assert demands[..0] == [];
    hide DemandsTallied, DemandTotals, DemandPart, DemandKeys, At, Plus, Zero, Bump, CreditIn;
    while i < |demands|
      invariant 0 <= i <= |demands|
      invariant DemandsTallied(gaps, r, open, left, market, demands[..i], credits)
    {
      var demand := demands[i];
      var key := GapKey(market, demand.group);
      var credit := CreditIn(left, demand.group);
      var applied := Min(credit, demand.quantity);
      var remaining := demand.quantity - applied;
      DemandTalliedNext(gaps, r, open, left, market, demands, credits, i, key, remaining, credit - applied);
      left := left[demand.group := credit - applied];
      r := Bump(r, key, Zero().(demand := remaining));
      if remaining > 0 {
        open := open + {key};
      }
      i := i + 1;
    }
    assert demands[..i] == demands;
    DemandsTalliedAll(gaps, r, open, left, market, demands, credits);
  }

  lemma DemandsTalliedNone(gaps: map<GapKey, GapTotals>, market: uint32, credits: map<Group, uint32>)
    ensures DemandsTallied(gaps, gaps, {}, credits, market, [], credits)
  {
  }

  lemma DemandsTalliedAll(gaps: map<GapKey, GapTotals>, r: map<GapKey, GapTotals>, open: set<GapKey>, left: map<Group, uint32>,
                          market: uint32, demands: seq<DemandFact>, credits: map<Group, uint32>)
    requires DemandsTallied(gaps, r, open, left, market, demands, credits)
    ensures r.Keys == gaps.Keys + DemandKeys(market, demands)
    ensures forall k :: At(r, k) == Plus(At(gaps, k), DemandTotals(market, demands, credits, k))
    ensures forall k :: k in open <==> DemandPart(market, demands, credits, k) > 0
  {
    hide DemandTotals, DemandPart, DemandKeys, At;
  }

  // ----- supplies

  /** What a holder's supplies add to a key: an actor's goods, or with `auctioned` a market's. */
  function SupplyTotals(market: uint32, supplies: seq<SupplyFact>, auctioned: bool, k: GapKey): GapTotals
  {
    Held(if market == k.market then SupplySum(supplies, k.group) else 0, auctioned)
  }

  function Held(quantity: nat, auctioned: bool): GapTotals
  {
    if auctioned then Zero().(supply := quantity, auction := quantity) else Zero().(supply := quantity, nonAuction := quantity)
  }

  ghost predicate SuppliesTallied(gaps: map<GapKey, GapTotals>, r: map<GapKey, GapTotals>, market: uint32,
                                  supplies: seq<SupplyFact>, auctioned: bool)
  {
    && r.Keys == gaps.Keys + SupplyKeys(market, supplies)
    && (forall k :: At(r, k) == Plus(At(gaps, k), SupplyTotals(market, supplies, auctioned, k)))
  }

  lemma SupplyTotalsNext(market: uint32, supplies: seq<SupplyFact>, i: nat, auctioned: bool, k: GapKey)
    requires i < |supplies|
    ensures var before := SupplyTotals(market, supplies[..i], auctioned, k);
            SupplyTotals(market, supplies[..i + 1], auctioned, k) ==
            if k == GapKey(market, supplies[i].group) then Plus(before, Held(supplies[i].quantity, auctioned)) else before
  {
    SupplySumNext(supplies, i, k.group);
    hide SupplySum;
  }

  lemma SupplyRowNext(gaps: map<GapKey, GapTotals>, r: map<GapKey, GapTotals>, market: uint32,
                      supplies: seq<SupplyFact>, auctioned: bool, i: nat, k: GapKey)
    requires i < |supplies|
    requires At(r, k) == Plus(At(gaps, k), SupplyTotals(market, supplies[..i], auctioned, k))
    ensures At(Bump(r, GapKey(market, supplies[i].group), Held(supplies[i].quantity, auctioned)), k) ==
            Plus(At(gaps, k), SupplyTotals(market, supplies[..i + 1], auctioned, k))
  {
    hide SupplyTotals, At, Plus, Bump, Held;
    var key, part := GapKey(market, supplies[i].group), Held(supplies[i].quantity, auctioned);
    var before, after := SupplyTotals(market, supplies[..i], auctioned, k), SupplyTotals(market, supplies[..i + 1], auctioned, k);
    SupplyTotalsNext(market, supplies, i, auctioned, k);
    BumpAt(r, key, part, k);
    RowNext(At(gaps, k), At(r, k), before, At(Bump(r, key, part), k), after, part, k == key);
  }

  lemma SupplyTalliedNext(gaps: map<GapKey, GapTotals>, r: map<GapKey, GapTotals>, market: uint32,
                          supplies: seq<SupplyFact>, auctioned: bool, i: nat)
    requires i < |supplies| && SuppliesTallied(gaps, r, market, supplies[..i], auctioned)
    ensures var bumped := Bump(r, GapKey(market, supplies[i].group), Held(supplies[i].quantity, auctioned));
            SuppliesTallied(gaps, bumped, market, supplies[..i + 1], auctioned)
  {
    hide SupplyTotals, SupplyKeys, At, Plus, Held, Bump;
    var bumped := Bump(r, GapKey(market, supplies[i].group), Held(supplies[i].quantity, auctioned));
    forall k
      ensures At(bumped, k) == Plus(At(gaps, k), SupplyTotals(market, supplies[..i + 1], auctioned, k))
    {
      SupplyRowNext(gaps, r, market, supplies, auctioned, i, k);
    }
    SupplyKeysNext(market, supplies, i);
  }

  lemma SupplyKeysNext(market: uint32, supplies: seq<SupplyFact>, i: nat)
    requires i < |supplies|
    ensures SupplyKeys(market, supplies[..i + 1]) == SupplyKeys(market, supplies[..i]) + {GapKey(market, supplies[i].group)}
  {
    assert supplies[..i + 1] == supplies[..i] + [supplies[i]];
  }

  method TallySupplies(gaps: map<GapKey, GapTotals>, market: uint32, supplies: seq<SupplyFact>, auctioned: bool)
    returns (r: map<GapKey, GapTotals>)
    ensures r.Keys == gaps.Keys + SupplyKeys(market, supplies)
    ensures forall k :: At(r, k) == Plus(At(gaps, k), SupplyTotals(market, supplies, auctioned, k))
  {
    hide SuppliesTallied, SupplyTotals, SupplyKeys, At, Plus, Bump;
    r := gaps;
    var i := 0;
    NoSuppliesTallied(gaps, market, supplies, auctioned);
    while i < |supplies|
      invariant 0 <= i <= |supplies|
      invariant SuppliesTallied(gaps, r, market, supplies[..i], auctioned)
    {
      SupplyTalliedNext(gaps, r, market, supplies, auctioned, i);
      r := Bump(r, GapKey(market, supplies[i].group), Held(supplies[i].quantity, auctioned));
      i := i + 1;
    }
    assert supplies[..i] == supplies;
    SuppliesTalliedAll(gaps, r, market, supplies, auctioned);
  }

  lemma NoSuppliesTallied(gaps: map<GapKey, GapTotals>, market: uint32, supplies: seq<SupplyFact>, auctioned: bool)
    ensures SuppliesTallied(gaps, gaps, market, supplies[..0], auctioned)
  {
    hide At;
  }

  lemma SuppliesTalliedAll(gaps: map<GapKey, GapTotals>, r: map<GapKey, GapTotals>, market: uint32,
                           supplies: seq<SupplyFact>, auctioned: bool)
    requires SuppliesTallied(gaps, r, market, supplies, auctioned)
    ensures r.Keys == gaps.Keys + SupplyKeys(market, supplies)
    ensures forall k :: At(r, k) == Plus(At(gaps, k), SupplyTotals(market, supplies, auctioned, k))
  {
    hide SupplyTotals, SupplyKeys, At;
  }

  // ----- claims

  ghost predicate ClaimsTallied(gaps: map<GapKey, GapTotals>, r: map<GapKey, GapTotals>, claims: seq<Claim>)
  {
    && r.Keys == gaps.Keys + ClaimKeys(claims)
    && (forall k :: At(r, k) == Plus(At(gaps, k), ClaimTotals(claims, k)))
  }

  lemma ClaimTotalsNext(claims: seq<Claim>, i: nat, k: GapKey)
    requires i < |claims|
    ensures ClaimTotals(claims[..i + 1], k) == Plus(ClaimTotals(claims[..i], k), ClaimPart(claims[i], k))
  {
    assert claims[..i + 1] == claims[..i] + [claims[i]];
    ClaimTotalsAppend(claims[..i], claims[i], k);
  }

  lemma ClaimTotalsOwnRow(claims: seq<Claim>, i: nat, k: GapKey)
    requires i < |claims|
    ensures var c := claims[i];
            var before := ClaimTotals(claims[..i], k);
            ClaimTotals(claims[..i + 1], k) ==
            if !c.Personal() && k == c.Key() then Plus(before, ClaimPart(c, k)) else before
  {
    ClaimTotalsNext(claims, i, k);
    hide ClaimTotals;
  }

  lemma ClaimRowNext(gaps: map<GapKey, GapTotals>, r: map<GapKey, GapTotals>, claims: seq<Claim>, i: nat, k: GapKey)
    requires i < |claims|
    requires At(r, k) == Plus(At(gaps, k), ClaimTotals(claims[..i], k))
    ensures var c := claims[i];
            At(if c.Personal() then r else Bump(r, c.Key(), ClaimPart(c, c.Key())), k) ==
            Plus(At(gaps, k), ClaimTotals(claims[..i + 1], k))
  {
    hide ClaimTotals, ClaimPart, At, Plus, Bump;
    var c := claims[i];
    var part := ClaimPart(c, c.Key());
    var after := if c.Personal() then r else Bump(r, c.Key(), part);
    ClaimTotalsOwnRow(claims, i, k);
    BumpAt(r, c.Key(), part, k);
    RowNext(At(gaps, k), At(r, k), ClaimTotals(claims[..i], k), At(after, k), ClaimTotals(claims[..i + 1], k), part,
            !c.Personal() && k == c.Key());
  }

  lemma ClaimTalliedNext(gaps: map<GapKey, GapTotals>, r: map<GapKey, GapTotals>, claims: seq<Claim>, i: nat)
    requires i < |claims| && ClaimsTallied(gaps, r, claims[..i])
    ensures var c := claims[i];
            ClaimsTallied(gaps, if c.Personal() then r else Bump(r, c.Key(), ClaimPart(c, c.Key())), claims[..i + 1])
  {
    hide ClaimTotals, ClaimPart, ClaimKeys, At, Plus, Bump;
    var c := claims[i];
    forall k
      ensures At(if c.Personal() then r else Bump(r, c.Key(), ClaimPart(c, c.Key())), k) ==
              Plus(At(gaps, k), ClaimTotals(claims[..i + 1], k))
    {
      ClaimRowNext(gaps, r, claims, i, k);
    }
    ClaimKeysNext(claims, i);
  }

  lemma ClaimKeysNext(claims: seq<Claim>, i: nat)
    requires i < |claims|
    ensures ClaimKeys(claims[..i + 1]) == ClaimKeys(claims[..i]) + if claims[i].Personal() then {} else {claims[i].Key()}
  {
    assert claims[..i + 1] == claims[..i] + [claims[i]];
  }

  /** Adds the claims, skipping personal ones. */
  method TallyClaims(gaps: map<GapKey, GapTotals>, claims: seq<Claim>) returns (r: map<GapKey, GapTotals>)
    ensures r.Keys == gaps.Keys + ClaimKeys(claims)
    ensures forall k :: At(r, k) == Plus(At(gaps, k), ClaimTotals(claims, k))
  {
    r := gaps;
    var i := 0;
    assert ClaimsTallied(gaps, r, claims[..0]);
    hide ClaimsTallied, ClaimTotals, ClaimPart, ClaimKeys, At, Plus, Bump;
    while i < |claims|
      invariant 0 <= i <= |claims|
      invariant ClaimsTallied(gaps, r, claims[..i])
    {
      ClaimTalliedNext(gaps, r, claims, i);
      var claim := claims[i];
      if !claim.Personal() {
        var part := TallyClaim(claim);
        r := Bump(r, claim.Key(), part);
      }
      i := i + 1;
    }
    assert claims[..i] == claims;
    ClaimsTalliedAll(gaps, r, claims);
  }

  /** What a shared claim adds to its own row. */
  method TallyClaim(claim: Claim) returns (part: GapTotals)
    requires !claim.Personal()
    ensures part == ClaimPart(claim, claim.Key())
  {
    part := Zero();
    if claim.terms.kind.Purchase? {
      if claim.state.Leased? {
        if claim.terms.priority.Speculation? {
          part := part.(speculation := claim.quantity);
        } else {
          part := part.(purchase := claim.quantity);
        }
      }
    } else if claim.state.Leased? {
      part := part.(supply := claim.committed, claimed := Minus(claim.quantity, claim.committed),
                    nonAuction := claim.quantity);
    } else if claim.state.Released? && claim.bridged != 0 {
      part := part.(supply := claim.bridged, nonAuction := claim.bridged);
    }
  }

  lemma ClaimsTalliedAll(gaps: map<GapKey, GapTotals>, r: map<GapKey, GapTotals>, claims: seq<Claim>)
    requires ClaimsTallied(gaps, r, claims)
    ensures r.Keys == gaps.Keys + ClaimKeys(claims)
    ensures forall k :: At(r, k) == Plus(At(gaps, k), ClaimTotals(claims, k))
  {
    hide ClaimTotals, ClaimKeys, At;
  }

  // ----- consumers

  function ConsumersAt(consumers: map<GapKey, seq<uint32>>, k: GapKey): seq<uint32>
  {
    if k in consumers then consumers[k] else []
  }

  /** Enters an actor at every key where it has demand left. */
  method TallyConsumer(consumers: map<GapKey, seq<uint32>>, open: set<GapKey>, guid: uint32) returns (r: map<GapKey, seq<uint32>>)
    ensures forall k :: ConsumersAt(r, k) == ConsumersAt(consumers, k) + if k in open then [guid] else []
    ensures (forall k | k in consumers :: consumers[k] != []) ==> forall k | k in r :: r[k] != []
  {
    r := consumers;
    var todo := open;
    while todo != {}
      invariant todo <= open
      invariant forall k :: ConsumersAt(r, k) == ConsumersAt(consumers, k) + if k in open - todo then [guid] else []
      invariant (forall k | k in consumers :: consumers[k] != []) ==> forall k | k in r :: r[k] != []
    {
      var key :| key in todo;
      r := r[key := ConsumersAt(r, key) + [guid]];
      todo := todo - {key};
    }
  }

  // ----- actors

  predicate Known(guids: seq<uint32>, actors: map<uint32, ActorFacts>)
  {
    forall g | g in guids :: g in actors
  }

  /** The table and the consumer lists after a number of actors. */
  ghost predicate ActorsTallied(gaps: map<GapKey, GapTotals>, consumers: map<GapKey, seq<uint32>>,
                                actors: map<uint32, ActorFacts>, credits: map<uint32, map<Group, uint32>>, done: seq<uint32>)
    requires Known(done, actors)
  {
    && gaps.Keys == (set g, k | g in done && k in ActorKeys(actors[g]) :: k)
    && (forall k :: At(gaps, k) == ActorTotals(actors, credits, done, k))
    && (forall k :: ConsumersAt(consumers, k) == Consumers(actors, credits, done, k))
    && (forall k | k in consumers :: consumers[k] != [])
  }

  function CreditsOf(credits: map<uint32, map<Group, uint32>>, guid: uint32): map<Group, uint32>
  {
    if guid in credits then credits[guid] else map[]
  }

  /** What an actor adds, the way the loop adds it. */
  function DemandAdded(actor: ActorFacts, credits: map<Group, uint32>, k: GapKey): GapTotals
  {
    if actor.online && actor.autonomous then DemandTotals(actor.market, actor.demands, credits, k) else Zero()
  }

  lemma ActorPartAdded(guid: uint32, actor: ActorFacts, credits: map<uint32, map<Group, uint32>>, k: GapKey, start: GapTotals)
    ensures Plus(Plus(start, DemandAdded(actor, CreditsOf(credits, guid), k)), SupplyTotals(actor.market, actor.supplies, false, k)) ==
            Plus(start, ActorPart(guid, actor, credits, k))
    ensures DemandAdded(actor, CreditsOf(credits, guid), k).demand == ActorDemand(guid, actor, credits, k)
  {
    hide DemandSum, SupplySum;
  }

  method TallyActor(gaps: map<GapKey, GapTotals>, consumers: map<GapKey, seq<uint32>>, guid: uint32, actor: ActorFacts,
                    credits: map<uint32, map<Group, uint32>>)
    returns (r: map<GapKey, GapTotals>, c: map<GapKey, seq<uint32>>)
    ensures r.Keys == gaps.Keys + ActorKeys(actor)
    ensures forall k :: At(r, k) == Plus(At(gaps, k), ActorPart(guid, actor, credits, k))
    ensures forall k :: ConsumersAt(c, k) == ConsumersAt(consumers, k) + if ActorDemand(guid, actor, credits, k) > 0 then [guid] else []
    ensures (forall k | k in consumers :: consumers[k] != []) ==> forall k | k in c :: c[k] != []
  {
    hide DemandTotals, SupplyTotals, Plus, At, ActorPart, ActorDemand;
    r, c := gaps, consumers;
    if actor.online && actor.autonomous {
      var open;
      r, open := TallyDemands(r, actor.market, actor.demands, CreditsOf(credits, guid));
      c := TallyConsumer(c, open, guid);
    }
    ghost var middle := r;
    r := TallySupplies(r, actor.market, actor.supplies, false);
    forall k
      ensures At(middle, k) == Plus(At(gaps, k), DemandAdded(actor, CreditsOf(credits, guid), k))
    {
      PlusZero(At(gaps, k));
    }
    forall k
      ensures At(r, k) == Plus(At(gaps, k), ActorPart(guid, actor, credits, k))
    {
      ActorPartAdded(guid, actor, credits, k, At(gaps, k));
    }
    forall k
      ensures ConsumersAt(c, k) == ConsumersAt(consumers, k) + if ActorDemand(guid, actor, credits, k) > 0 then [guid] else []
    {
      ActorPartAdded(guid, actor, credits, k, Zero());
      DemandTotalsShow(actor, CreditsOf(credits, guid), k);
    }
  }

  lemma DemandTotalsShow(actor: ActorFacts, credits: map<Group, uint32>, k: GapKey)
    ensures DemandTotals(actor.market, actor.demands, credits, k).demand == DemandPart(actor.market, actor.demands, credits, k)
    ensures !(actor.online && actor.autonomous) ==> DemandAdded(actor, credits, k).demand == 0
  {
  }

  lemma ActorsTalliedNext(gaps: map<GapKey, GapTotals>, consumers: map<GapKey, seq<uint32>>,
                          r: map<GapKey, GapTotals>, c: map<GapKey, seq<uint32>>,
                          actors: map<uint32, ActorFacts>, credits: map<uint32, map<Group, uint32>>, done: seq<uint32>, guid: uint32)
    requires Known(done, actors) && guid in actors && ActorsTallied(gaps, consumers, actors, credits, done)
    requires r.Keys == gaps.Keys + ActorKeys(actors[guid])
    requires forall k :: At(r, k) == Plus(At(gaps, k), ActorPart(guid, actors[guid], credits, k))
    requires forall k :: ConsumersAt(c, k) == ConsumersAt(consumers, k) +
                           if ActorDemand(guid, actors[guid], credits, k) > 0 then [guid] else []
    requires forall k | k in c :: c[k] != []
    ensures Known(done + [guid], actors) && ActorsTallied(r, c, actors, credits, done + [guid])
  {
    hide At, Plus, ActorPart, ActorDemand, ActorKeys, ConsumersAt;
    var next := done + [guid];
    assert next[..|done|] == done;
    assert forall g :: g in next <==> g in done || g == guid;
  }

  /** Adds the actors in ascending order. */
  method TallyActors(actors: map<uint32, ActorFacts>, credits: map<uint32, map<Group, uint32>>)
    returns (gaps: map<GapKey, GapTotals>, consumers: map<GapKey, seq<uint32>>)
    ensures ActorsTallied(gaps, consumers, actors, credits, AscendingGuids(actors.Keys))
  {
    hide AscendingGuids;
    gaps, consumers := map[], map[];
    var todo := actors.Keys;
    ghost var done: seq<uint32> := [];
    assert ActorsTallied(gaps, consumers, actors, credits, done);
    hide ActorsTallied;
    while todo != {}
      invariant todo <= actors.Keys
      invariant Known(done, actors) && done + AscendingGuids(todo) == AscendingGuids(actors.Keys)
      invariant ActorsTallied(gaps, consumers, actors, credits, done)
    {
      FirstGuidExists(todo);
      var guid :| guid in todo && FirstGuid(guid, todo);
      VisitFirstGuid(done, guid, todo);
      NoneEmpty(gaps, consumers, actors, credits, done);
      var nextGaps, nextConsumers := TallyActor(gaps, consumers, guid, actors[guid], credits);
      ActorsTalliedNext(gaps, consumers, nextGaps, nextConsumers, actors, credits, done, guid);
      gaps, consumers := nextGaps, nextConsumers;
      todo := todo - {guid};
      done := done + [guid];
    }
    NoGuidLeft(done);
  }

  lemma NoneEmpty(gaps: map<GapKey, GapTotals>, consumers: map<GapKey, seq<uint32>>,
                  actors: map<uint32, ActorFacts>, credits: map<uint32, map<Group, uint32>>, done: seq<uint32>)
    requires Known(done, actors) && ActorsTallied(gaps, consumers, actors, credits, done)
    ensures forall k | k in consumers :: consumers[k] != []
  {
  }

  // ----- markets

  ghost predicate MarketsTallied(gaps: map<GapKey, GapTotals>, r: map<GapKey, GapTotals>, markets: map<uint32, MarketFacts>)
  {
    && r.Keys == gaps.Keys + MarketsKeys(markets)
    && (forall k :: At(r, k) == Plus(At(gaps, k), MarketPart(markets, k)))
  }

  lemma MarketPartAdded(markets: map<uint32, MarketFacts>, todo: set<uint32>, m: uint32, k: GapKey, start: GapTotals)
    requires m in todo && todo <= markets.Keys
    ensures Plus(Plus(start, MarketPart(markets - todo, k)), SupplyTotals(m, markets[m].supplies, true, k)) ==
            Plus(start, MarketPart(markets - (todo - {m}), k))
  {
    hide SupplySum;
  }

  lemma MarketsTalliedNext(gaps: map<GapKey, GapTotals>, before: map<GapKey, GapTotals>, after: map<GapKey, GapTotals>,
                           markets: map<uint32, MarketFacts>, todo: set<uint32>, m: uint32)
    requires m in todo && todo <= markets.Keys && MarketsTallied(gaps, before, markets - todo)
    requires after.Keys == before.Keys + SupplyKeys(m, markets[m].supplies)
    requires forall k :: At(after, k) == Plus(At(before, k), SupplyTotals(m, markets[m].supplies, true, k))
    ensures MarketsTallied(gaps, after, markets - (todo - {m}))
  {
    hide At, Plus, SupplyTotals, MarketPart;
    forall k
      ensures At(after, k) == Plus(At(gaps, k), MarketPart(markets - (todo - {m}), k))
    {
      MarketPartAdded(markets, todo, m, k, At(gaps, k));
    }
    MarketsKeysNext(markets, todo, m);
  }

  lemma MarketsKeysNext(markets: map<uint32, MarketFacts>, todo: set<uint32>, m: uint32)
    requires m in todo && todo <= markets.Keys
    ensures MarketsKeys(markets - (todo - {m})) == MarketsKeys(markets - todo) + SupplyKeys(m, markets[m].supplies)
  {
    var before, after := markets - todo, markets - (todo - {m});
    assert forall x :: x in after <==> x in before || x == m;
    assert MarketKeys(m, after[m]) == SupplyKeys(m, markets[m].supplies);
    hide MarketKeys, SupplyKeys;
    forall k
      ensures k in MarketsKeys(after) <==> k in MarketsKeys(before) || k in MarketKeys(m, after[m])
    {
      if k in MarketsKeys(after) {
        var x :| x in after && k in MarketKeys(x, after[x]);
        assert x == m || (x in before && before[x] == after[x]);
      }
      if k in MarketsKeys(before) {
        var x :| x in before && k in MarketKeys(x, before[x]);
        assert x in after && after[x] == before[x];
      }
    }
  }

  /** Adds the markets. Each has its own keys, so their order does not matter. */
  method TallyMarkets(gaps: map<GapKey, GapTotals>, markets: map<uint32, MarketFacts>) returns (r: map<GapKey, GapTotals>)
    ensures MarketsTallied(gaps, r, markets)
  {
    r := gaps;
    var todo := markets.Keys;
    NoMarketsTallied(gaps, markets);
    hide MarketsTallied;
    while todo != {}
      invariant todo <= markets.Keys
      invariant MarketsTallied(gaps, r, markets - todo)
    {
      var m :| m in todo;
      var next := TallySupplies(r, m, markets[m].supplies, true);
      MarketsTalliedNext(gaps, r, next, markets, todo, m);
      r := next;
      todo := todo - {m};
    }
    assert markets - {} == markets;
  }

  lemma NoMarketsTallied(gaps: map<GapKey, GapTotals>, markets: map<uint32, MarketFacts>)
    ensures MarketsTallied(gaps, gaps, markets - markets.Keys)
  {
    forall k
      ensures At(gaps, k) == Plus(At(gaps, k), MarketPart(markets - markets.Keys, k))
    {
      PlusZero(At(gaps, k));
    }
  }

  // ----- the whole table

  /** A rebuild yields the defined totals and consumers of every key. */
  method Rebuild(b: Book) returns (gaps: map<GapKey, GapTotals>, consumers: map<GapKey, seq<uint32>>)
    ensures gaps == FreshGaps(b) && consumers == FreshConsumers(b)
    ensures forall k :: At(gaps, k) == TotalsAt(b, k)
  {
    var actorGaps;
    actorGaps, consumers := TallyActors(b.actors, b.credits);
    var marketGaps := TallyMarkets(actorGaps, b.markets);
    gaps := TallyClaims(marketGaps, b.claims);
    RebuiltRows(b, actorGaps, consumers, marketGaps, gaps);
    RebuiltConsumers(b, actorGaps, consumers);
  }

  lemma RebuiltRows(b: Book, actorGaps: map<GapKey, GapTotals>, consumers: map<GapKey, seq<uint32>>,
                    marketGaps: map<GapKey, GapTotals>, gaps: map<GapKey, GapTotals>)
    requires ActorsTallied(actorGaps, consumers, b.actors, b.credits, AscendingGuids(b.actors.Keys))
    requires MarketsTallied(actorGaps, marketGaps, b.markets)
    requires gaps.Keys == marketGaps.Keys + ClaimKeys(b.claims)
    requires forall k :: At(gaps, k) == Plus(At(marketGaps, k), ClaimTotals(b.claims, k))
    ensures gaps == FreshGaps(b)
    ensures forall k :: At(gaps, k) == TotalsAt(b, k)
  {
    hide ClaimTotals, Plus, ActorTotals, MarketPart, MarketsKeys, ClaimKeys, AscendingGuids, ActorKeys, Consumers, ConsumersAt;
    assert gaps.Keys == Touched(b);
    forall k | k in gaps
      ensures gaps[k] == TotalsAt(b, k)
    {
      assert At(gaps, k) == TotalsAt(b, k);
    }
  }

  lemma RebuiltConsumers(b: Book, gaps: map<GapKey, GapTotals>, consumers: map<GapKey, seq<uint32>>)
    requires ActorsTallied(gaps, consumers, b.actors, b.credits, AscendingGuids(b.actors.Keys))
    ensures consumers == FreshConsumers(b)
  {
    forall k
      ensures k in consumers <==> ConsumersOf(b, k) != []
      ensures k in consumers ==> consumers[k] == ConsumersOf(b, k)
      ensures k in consumers ==> k in Touched(b)
    {
      assert ConsumersAt(consumers, k) == ConsumersOf(b, k);
      ConsumerHasKey(b.actors, b.credits, AscendingGuids(b.actors.Keys), k);
    }
  }

  /** Only a key some actor names has consumers. */
  lemma {:induction false} ConsumerHasKey(actors: map<uint32, ActorFacts>, credits: map<uint32, map<Group, uint32>>,
                                          guids: seq<uint32>, k: GapKey)
    requires Known(guids, actors)
    ensures Consumers(actors, credits, guids, k) != [] ==> k in ActorsKeys(actors)
  {
    if guids != [] {
      var g := guids[|guids| - 1];
      ConsumerHasKey(actors, credits, guids[..|guids| - 1], k);
      if ActorDemand(g, actors[g], credits, k) > 0 {
        DemandedIsNamed(actors[g].demands, k.group);
        assert k in ActorKeys(actors[g]);
      }
    }
  }

  lemma {:induction false} DemandedIsNamed(demands: seq<DemandFact>, group: Group)
    ensures DemandSum(demands, group) > 0 ==> exists d :: d in demands && d.group == group
  {
    if demands != [] {
      DemandedIsNamed(demands[..|demands| - 1], group);
    }
  }

  /** Looking a key up in the table gives its totals, row or no row. */
  lemma RowIsTotal(b: Book, k: GapKey)
    ensures At(FreshGaps(b), k) == TotalsAt(b, k)
  {
    if k !in Touched(b) {
      UntouchedIsZero(b, k);
    }
    hide TotalsAt;
  }

  lemma ConsumerRow(b: Book, k: GapKey)
    ensures ConsumersAt(FreshConsumers(b), k) == ConsumersOf(b, k)
  {
    ConsumerHasKey(b.actors, b.credits, AscendingGuids(b.actors.Keys), k);
    hide Consumers;
  }

  // ----- totals per group, as the calls that need them build them

  function Entry(sums: map<Group, nat>, group: Group): nat
  {
    if group in sums then sums[group] else 0
  }

  method SumDemands(demands: seq<DemandFact>) returns (sums: map<Group, nat>)
    ensures sums.Keys == InputGroups(demands)
    ensures forall g :: Entry(sums, g) == DemandSum(demands, g)
  {
    sums := map[];
    var i := 0;
    while i < |demands|
      invariant 0 <= i <= |demands|
      invariant sums.Keys == InputGroups(demands[..i])
      invariant forall g :: Entry(sums, g) == DemandSum(demands[..i], g)
    {
      forall g
        ensures DemandSum(demands[..i + 1], g) ==
                DemandSum(demands[..i], g) + if demands[i].group == g then demands[i].quantity else 0
      {
        DemandSumNext(demands, i, g);
      }
      assert demands[..i + 1] == demands[..i] + [demands[i]];
      sums := sums[demands[i].group := Entry(sums, demands[i].group) + demands[i].quantity];
      i := i + 1;
    }
    assert demands[..i] == demands;
  }

  method SumSupplies(supplies: seq<SupplyFact>) returns (sums: map<Group, nat>)
    ensures forall g :: Entry(sums, g) == SupplySum(supplies, g)
  {
    sums := map[];
    var i := 0;
    while i < |supplies|
      invariant 0 <= i <= |supplies|
      invariant forall g :: Entry(sums, g) == SupplySum(supplies[..i], g)
    {
      assert supplies[..i + 1][..i] == supplies[..i];
      sums := sums[supplies[i].group := Entry(sums, supplies[i].group) + supplies[i].quantity];
      i := i + 1;
    }
    assert supplies[..i] == supplies;
  }

  /** Only goods in bags and mail; goods on auction are still on offer. */
  method SumReported(supplies: seq<SupplyFact>) returns (sums: map<Group, nat>)
    ensures forall g :: Entry(sums, g) == Reported(supplies, g)
  {
    sums := map[];
    var i := 0;
    while i < |supplies|
      invariant 0 <= i <= |supplies|
      invariant forall g :: Entry(sums, g) == Reported(supplies[..i], g)
    {
      var supply := supplies[i];
      assert supplies[..i + 1][..i] == supplies[..i];
      if supply.source.Inventory? || supply.source.Mail? {
        sums := sums[supply.group := Entry(sums, supply.group) + supply.quantity];
      }
      i := i + 1;
    }
    assert supplies[..i] == supplies;
  }
}
