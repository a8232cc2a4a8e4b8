/** Families of books and runs on which two bounds one might expect of the coordinator fail. */
module Counterexamples {
  import opened Economy
  import opened Order
  import opened Gaps
  import opened Claims
  import opened Trim
  import opened Steps
  import opened Safety
  import opened Credits

  lemma NoClaims(k: GapKey)
    ensures ClaimTotals([], k) == Zero()
  {
  }

  lemma SingleTotals(c: Claim, k: GapKey)
    ensures ClaimTotals([c], k) == ClaimPart(c, k)
  {
    hide ClaimTotals, ClaimPart, Plus;
    NoClaims(k);
    PlusZero(ClaimPart(c, k));
    ClaimTotalsAppend([], c, k);
    assert [] + [c] == [c];
  }

  lemma PairTotals(c: Claim, d: Claim, k: GapKey)
    ensures ClaimTotals([c, d], k) == Plus(ClaimPart(c, k), ClaimPart(d, k))
  {
    hide ClaimTotals, ClaimPart, Plus;
    SingleTotals(c, k);
    ClaimTotalsAppend([c], d, k);
    assert [c] + [d] == [c, d];
  }

  lemma NoRun(b: Book)
    ensures Run(b, []) == b
  {
  }

  lemma RunNext(b: Book, calls: seq<Call>, i: nat)
    requires i < |calls|
    ensures Run(b, calls[..i + 1]) == Step(Run(b, calls[..i]), calls[i])
  {
    hide Step;
    assert calls[..i + 1][..i] == calls[..i];
  }

  /** One more call of a run, named by its own step function. */
  lemma Advance(b: Book, calls: seq<Call>, i: nat)
    requires i < |calls|
    ensures var was, next := Run(b, calls[..i]), Run(b, calls[..i + 1]);
            match calls[i]
            case RefreshActorCall(facts, now, stale) => next == RefreshActor(was, facts, now, stale)
            case RefreshMarketCall(facts, now) => next == RefreshMarket(was, facts, now)
            case LeaseCall(r, now, verdict, chain) => next == Lease(was, r, now, verdict, chain).0
            case RecordOutcomeCall(id, outcome, committed, now) => next == RecordOutcome(was, id, outcome, committed, now)
            case ConsumeInputsCall(guid, inputs, now) => next == ConsumeInputs(was, guid, inputs, now)
            case _ => true
  {
    hide RefreshActor, RefreshMarket, Lease, RecordOutcome, ConsumeInputs;
    RunNext(b, calls, i);
    hide Run;
  }

  // ----- consumed inputs that leave a gap over-promised

  /** An online autonomous actor that wants n of one group and has nothing. */
  predicate Wants(a: ActorFacts, g: Group, n: uint32)
  {
    a.guid != 0 && a.market != 0 && a.online && a.autonomous && a.demands == [DemandFact(g, n)] && a.supplies == []
  }

  /** The actor's own request to produce all n. */
  predicate MakesAll(r: LeaseRequest, a: ActorFacts, g: Group, n: uint32)
  {
    && r.actor == a.guid && r.market == a.market && r.group == g && r.quantity == n && r.kind.Production?
    && !r.Personal() && r.work != ""
  }

  function Alone(a: ActorFacts): Book { EmptyBook().(actors := map[a.guid := a]) }

  lemma AloneTotals(b: Book, a: ActorFacts, k: GapKey)
    requires b.actors == map[a.guid := a]
    ensures FactTotals(b, k) == Plus(ActorPart(a.guid, a, b.credits, k), MarketPart(b.markets, k))
  {
    var g := a.guid;
    assert b.actors.Keys == {g};
    AscendingGuidsStartsWith(g, {g});
    assert {g} - {g} == {};
    assert AscendingGuids({g}) == [g];
    hide ActorPart;
    PlusZero(ActorPart(g, a, b.credits, k));
    assert ActorTotals(b.actors, b.credits, [], k) == Zero();
    assert ActorTotals(b.actors, b.credits, [g], k) == Plus(Zero(), ActorPart(g, a, b.credits, k));
  }

  lemma WantedSums(a: ActorFacts, g: Group, n: uint32)
    requires Wants(a, g, n)
    ensures DemandSum(a.demands, g) == n && SupplySum(a.supplies, g) == 0
  {
    assert a.demands[..0] == [];
  }

  lemma WantedTotals(b: Book, a: ActorFacts, g: Group, n: uint32)
    requires b.actors == map[a.guid := a] && b.markets == map[] && b.credits == map[] && Wants(a, g, n)
    ensures FactTotals(b, GapKey(a.market, g)) == GapTotals(n, 0, 0, 0, 0, 0, 0)
  {
    hide FactTotals, DemandSum, SupplySum;
    AloneTotals(b, a, GapKey(a.market, g));
    WantedSums(a, g, n);
  }

  lemma TrimmedNone(b: Book, now: nat)
    requires b.claims == []
    ensures Reconciled(b, now) == b
  {
    TrimmedLater(b, now);
  }

  /** With no claims and no credits a refresh takes in the facts and does nothing else. */
  lemma RefreshWithoutClaims(b: Book, a: ActorFacts, now: nat, stale: bool)
    requires b.claims == [] && b.credits == map[] && a.guid != 0
    ensures RefreshActor(b, a, now, stale) == b.(actors := b.actors[a.guid := a])
  {
    TrimmedNone(ActorRefreshed(b, a, now), now);
    hide Trimmed;
    assert b.credits - {a.guid} == b.credits;
  }

  lemma FirstRefresh(a: ActorFacts, g: Group, n: uint32, now: nat)
    requires Wants(a, g, n)
    ensures RefreshActor(EmptyBook(), a, now, false) == Alone(a)
  {
    RefreshWithoutClaims(EmptyBook(), a, now, false);
  }

  function Made(r: LeaseRequest, n: uint32, now: nat): Claim { NewClaim(1, r, Some(1), n, now) }

  function Promised(a: ActorFacts, r: LeaseRequest, n: uint32, now: nat): Book
  {
    Alone(a).(claims := [Made(r, n, now)], nextLeaseId := 2)
  }

  lemma WantsAll(a: ActorFacts, g: Group, n: uint32)
    requires Wants(a, g, n)
    ensures UnclaimedNeed(TotalsAt(Alone(a), GapKey(a.market, g))) == n
  {
    WantedTotals(Alone(a), a, g, n);
    NoClaims(GapKey(a.market, g));
    hide FactTotals, ClaimTotals;
  }

  lemma LeaseOfAll(a: ActorFacts, r: LeaseRequest, g: Group, n: uint32, now: nat)
    requires Wants(a, g, n) && MakesAll(r, a, g, n) && n > 0 && r.expiresAt > now
    ensures Lease(Alone(a), r, now, NoBlocker, Some(1)).0 == Promised(a, r, n, now)
  {
    WantsAll(a, g, n);
    hide TotalsAt;
    assert Tick(Alone(a), now) == Alone(a);
    assert Screen(Alone(a), r, now, NoBlocker) == None;
    assert [] + [Made(r, n, now)] == [Made(r, n, now)];
  }

  lemma PromisedTotals(a: ActorFacts, r: LeaseRequest, g: Group, n: uint32)
    requires Wants(a, g, n) && MakesAll(r, a, g, n) && n > 0 && r.expiresAt > 0
    ensures TotalsAt(Promised(a, r, n, 0), GapKey(a.market, g)) == GapTotals(n, 0, n, n, 0, 0, 0)
    ensures Tick(Promised(a, r, n, 0), 0) == Promised(a, r, n, 0)
  {
    WantedTotals(Promised(a, r, n, 0), a, g, n);
    SingleTotals(Made(r, n, 0), GapKey(a.market, g));
    hide FactTotals, ClaimTotals;
    assert ClaimPart(Made(r, n, 0), GapKey(a.market, g)) == GapTotals(0, 0, n, n, 0, 0, 0);
    assert Lapsed([Made(r, n, 0)], 0) == [Made(r, n, 0)];
    assert Kept([Made(r, n, 0)], 0) == [Made(r, n, 0)];
  }

  function OverPromisingRun(a: ActorFacts, r: LeaseRequest, g: Group, used: uint32): seq<Call>
  {
    [RefreshActorCall(a, 0, false), LeaseCall(r, 0, NoBlocker, Some(1)), ConsumeInputsCall(a.guid, [DemandFact(g, used)], 0)]
  }

  lemma UsedIsLowered(a: ActorFacts, r: LeaseRequest, g: Group, n: uint32, used: uint32)
    requires Wants(a, g, n) && MakesAll(r, a, g, n) && 0 < used <= n
    ensures Lowered(Promised(a, r, n, 0), a.guid, [DemandFact(g, used)], GapKey(a.market, g)) == used
  {
    var inputs := [DemandFact(g, used)];
    WantedSums(a, g, n);
    assert inputs[..0] == [];
    assert DemandSum(inputs, g) == used;
    assert inputs[0] in inputs;
  }

  /** A reachable state where production meets demand exactly, and a record of consumed inputs that
      leaves as much promised too much as it records. */
  lemma ConsumptionMayOverPromise(a: ActorFacts, r: LeaseRequest, g: Group, n: uint32, used: uint32)
    requires Wants(a, g, n) && MakesAll(r, a, g, n) && 0 < used <= n && r.expiresAt > 0
    ensures NoOverPromise(Run(EmptyBook(), OverPromisingRun(a, r, g, used)[..2]))
    ensures !NoOverPromise(Run(EmptyBook(), OverPromisingRun(a, r, g, used)))
  {
    OverPromisingSteps(a, r, g, n, used);
    hide Wants, MakesAll, Run, Step, NoOverPromise, CreditsOk, TotalsAt, Lowered, Promised;
    var run := OverPromisingRun(a, r, g, used);
    RunKeepsPromises(run[..2]);
    RunKeepsCredits(run[..2]);
    ConsumptionKeepsPromisesIffSlack(Promised(a, r, n, 0), a.guid, [DemandFact(g, used)], 0);
    NoSlackLeft(a, r, g, n, used);
  }

  lemma OverPromisingSteps(a: ActorFacts, r: LeaseRequest, g: Group, n: uint32, used: uint32)
    requires Wants(a, g, n) && MakesAll(r, a, g, n) && 0 < used <= n && r.expiresAt > 0
    ensures var run := OverPromisingRun(a, r, g, used);
            && (forall i | 0 <= i < 2 :: !run[..2][i].ConsumeInputsCall?)
            && Run(EmptyBook(), run[..2]) == Promised(a, r, n, 0)
            && Run(EmptyBook(), run) == ConsumeInputs(Promised(a, r, n, 0), a.guid, [DemandFact(g, used)], 0)
  {
    hide Wants, MakesAll, Run, Step, RefreshActor, Lease, ConsumeInputs, Promised, Alone, EmptyBook;
    FirstRefresh(a, g, n, 0);
    LeaseOfAll(a, r, g, n, 0);
    var run := OverPromisingRun(a, r, g, used);
    NoRun(EmptyBook());
    assert run[..0] == [];
    Advance(EmptyBook(), run, 0);
    Advance(EmptyBook(), run, 1);
    Advance(EmptyBook(), run, 2);
    assert run[..3] == run;
  }

  lemma NoSlackLeft(a: ActorFacts, r: LeaseRequest, g: Group, n: uint32, used: uint32)
    requires Wants(a, g, n) && MakesAll(r, a, g, n) && 0 < used <= n && r.expiresAt > 0
    ensures var k := GapKey(a.market, g);
            !SlackCovers(TotalsAt(Tick(Promised(a, r, n, 0), 0), k),
                         Lowered(Promised(a, r, n, 0), a.guid, [DemandFact(g, used)], k))
  {
    PromisedTotals(a, r, g, n);
    UsedIsLowered(a, r, g, n, used);
    hide TotalsAt, Lowered, Promised, Tick;
  }

  // ----- speculation left on goods that are needed again

  lemma TrimKeysNothing(claims: seq<Claim>, keys: seq<GapKey>, gaps: map<GapKey, GapTotals>, now: nat)
    requires forall k | k in keys :: k in gaps && NothingInExcess(gaps[k])
    ensures TrimKeys(claims, keys, gaps, now) == claims
  {
    if keys != [] {
      TrimKeysNothing(claims, keys[..|keys| - 1], gaps, now);
    }
  }

  predicate NothingInExcess(t: GapTotals)
  {
    SpeculationExcess(t) == PurchaseExcess(t) == ClaimedExcess(t) == 0
  }

  lemma NothingToTrim(b: Book, k: GapKey, now: nat)
    requires Touched(b) <= {k} && NothingInExcess(TotalsAt(b, k))
    ensures Reconciled(b, now) == b
  {
    hide TotalsAt, Touched, NothingInExcess, TrimKeys;
    FreshRows(b);
    TrimKeysNothing(b.claims, AscendingKeys(Touched(b)), FreshGaps(b), now);
  }

  /** The goods of one group at auction in the actor's market. */
  function Stock(a: ActorFacts, g: Group, q: uint32): MarketFacts
  {
    MarketFacts(a.market, [SupplyFact(g, q, ActiveAuction, 0)])
  }

  /** The actor, q goods at auction, and some claims of the one gap there is. */
  function Stocked(a: ActorFacts, g: Group, q: uint32, claims: seq<Claim>, nextLeaseId: nat): Book
  {
    Book(map[a.guid := a], map[a.market := Stock(a, g, q)], map[], claims, nextLeaseId)
  }

  lemma StockedTotals(a: ActorFacts, g: Group, w: uint32, q: uint32, claims: seq<Claim>, nextLeaseId: nat)
    requires Wants(a, g, w)
    ensures var k := GapKey(a.market, g);
            TotalsAt(Stocked(a, g, q, claims, nextLeaseId), k) == Plus(GapTotals(w, q, 0, 0, q, 0, 0), ClaimTotals(claims, k))
  {
    hide ClaimTotals, FactTotals, DemandSum;
    var b := Stocked(a, g, q, claims, nextLeaseId);
    AloneTotals(b, a, GapKey(a.market, g));
    WantedSums(a, g, w);
    assert b.markets[a.market].supplies[..0] == [];
  }

  lemma StockedKeys(a: ActorFacts, g: Group, w: uint32, q: uint32, claims: seq<Claim>, nextLeaseId: nat)
    requires Wants(a, g, w) && forall c | c in claims :: c.Key() == GapKey(a.market, g)
    ensures Touched(Stocked(a, g, q, claims, nextLeaseId)) <= {GapKey(a.market, g)}
  {
  }

  /** The actor's request to buy n of the group on speculation. */
  predicate Speculates(s: LeaseRequest, a: ActorFacts, g: Group, n: uint32)
  {
    && s.actor == a.guid && s.market == a.market && s.group == g && s.quantity == n && s.kind.Purchase?
    && s.priority.Speculation? && !s.Personal() && s.work != "" && a.account != 0 && s.sellerAccount != 0
  }

  /** What the run is told: w goods are wanted, n of them are bought on speculation, and both requests
      outlast the bridge of the first production claim. */
  predicate Scene(a: ActorFacts, r: LeaseRequest, s: LeaseRequest, g: Group, w: uint32, n: uint32)
  {
    && Wants(a, g, w) && MakesAll(r, a, g, w) && Speculates(s, a, g, n) && 0 < n && 2 * n <= w
    && r.expiresAt > 301 && s.expiresAt > 301
  }

  function Bridge(r: LeaseRequest, w: uint32): Claim
  {
    Settle(Made(r, w, 1), FailedTravel, w, 1)
  }

  function Bought(s: LeaseRequest, n: uint32): Claim { NewClaim(2, s, Some(1), n, 1) }

  function MadeAgain(r: LeaseRequest, m: uint32): Claim { NewClaim(3, r, Some(1), m, 301) }

  lemma SceneParts(a: ActorFacts, r: LeaseRequest, s: LeaseRequest, g: Group, w: uint32, n: uint32)
    requires Scene(a, r, s, g, w, n)
    ensures var k := GapKey(a.market, g);
            && ClaimPart(Bridge(r, w), k) == GapTotals(0, w, 0, w, 0, 0, 0)
            && ClaimPart(Bought(s, n), k) == GapTotals(0, 0, 0, 0, 0, 0, n)
            && ClaimPart(MadeAgain(r, w - n), k) == GapTotals(0, 0, w - n, w - n, 0, 0, 0)
  {
  }

  /** Production of all w is released with all of it done: the goods count until the bridge lapses. */
  lemma BridgeStands(a: ActorFacts, r: LeaseRequest, s: LeaseRequest, g: Group, w: uint32, n: uint32)
    requires Scene(a, r, s, g, w, n)
    ensures RecordOutcome(Promised(a, r, w, 1), 1, FailedTravel, w, 1) == Alone(a).(claims := [Bridge(r, w)], nextLeaseId := 2)
  {
    var c := Made(r, w, 1);
    assert Lapsed([c], 1) == [c];
    assert Kept([c], 1) == [c];
    assert [c][0 := Bridge(r, w)] == [Bridge(r, w)];
  }

  lemma StandingAt(c: Claim, now: nat)
    requires !Overdue(c, now) && !Forgotten(c, now)
    ensures Expired([c], now) == [c]
  {
    assert Lapsed([c], now) == [c];
    assert Kept([c][..0], now) == [];
  }

  lemma GoodsListed(a: ActorFacts, r: LeaseRequest, s: LeaseRequest, g: Group, w: uint32, n: uint32)
    requires Scene(a, r, s, g, w, n)
    ensures RefreshMarket(Alone(a).(claims := [Bridge(r, w)], nextLeaseId := 2), Stock(a, g, n), 1) ==
            Stocked(a, g, n, [Bridge(r, w)], 2)
  {
    var k, c := GapKey(a.market, g), Bridge(r, w);
    var before := Alone(a).(claims := [c], nextLeaseId := 2);
    StandingAt(c, 1);
    SceneParts(a, r, s, g, w, n);
    SingleTotals(c, k);
    StockedTotals(a, g, w, n, [c], 2);
    StockedKeys(a, g, w, n, [c], 2);
    hide TotalsAt, ClaimTotals, Expired, Touched, Reconciled;
    assert Tick(before, 1).(markets := before.markets[a.market := Stock(a, g, n)]) == Stocked(a, g, n, [c], 2);
    NothingToTrim(Stocked(a, g, n, [c], 2), k, 1);
  }

  lemma GoodsBought(a: ActorFacts, r: LeaseRequest, s: LeaseRequest, g: Group, w: uint32, n: uint32)
    requires Scene(a, r, s, g, w, n)
    ensures Lease(Stocked(a, g, n, [Bridge(r, w)], 2), s, 1, NoBlocker, Some(1)).0 ==
            Stocked(a, g, n, [Bridge(r, w), Bought(s, n)], 3)
  {
    var b, c := Stocked(a, g, n, [Bridge(r, w)], 2), Bridge(r, w);
    StandingAt(c, 1);
    SceneParts(a, r, s, g, w, n);
    SingleTotals(c, GapKey(a.market, g));
    StockedTotals(a, g, w, n, [c], 2);
    hide TotalsAt, ClaimTotals, Expired;
    assert Tick(b, 1) == b;
    assert Screen(b, s, 1, NoBlocker) == None;
    assert [c] + [Bought(s, n)] == [c, Bought(s, n)];
  }

  lemma BridgeLapses(a: ActorFacts, r: LeaseRequest, s: LeaseRequest, g: Group, w: uint32, n: uint32)
    requires Scene(a, r, s, g, w, n)
    ensures Expired([Bridge(r, w), Bought(s, n)], 301) == [Bought(s, n)]
  {
    var c, d := Bridge(r, w), Bought(s, n);
    assert Lapsed([c, d], 301) == [c, d];
    assert [c, d][..1] == [c] && [c][..0] == [];
    assert Kept([c], 301) == [];
  }

  lemma MadeBesideSpeculation(a: ActorFacts, r: LeaseRequest, s: LeaseRequest, g: Group, w: uint32, n: uint32)
    requires Scene(a, r, s, g, w, n)
    ensures Lease(Stocked(a, g, n, [Bridge(r, w), Bought(s, n)], 3), r, 301, NoBlocker, Some(1)).0 ==
            Stocked(a, g, n, [Bought(s, n), MadeAgain(r, w - n)], 4)
  {
    var b, b' := Stocked(a, g, n, [Bridge(r, w), Bought(s, n)], 3), Stocked(a, g, n, [Bought(s, n)], 3);
    BridgeLapses(a, r, s, g, w, n);
    RoomBesideSpeculation(a, r, s, g, w, n);
    hide TotalsAt, Bridge, Screen, SpeculationReleased, NewClaim;
    assert Tick(b, 301) == b';
    hide Expired, Tick;
    assert [Bought(s, n)] + [MadeAgain(r, w - n)] == [Bought(s, n), MadeAgain(r, w - n)];
  }

  lemma RoomBesideSpeculation(a: ActorFacts, r: LeaseRequest, s: LeaseRequest, g: Group, w: uint32, n: uint32)
    requires Scene(a, r, s, g, w, n)
    ensures var b := Stocked(a, g, n, [Bought(s, n)], 3);
            Screen(b, r, 301, NoBlocker) == None && UnclaimedNeed(TotalsAt(b, GapKey(a.market, g))) == w - n
  {
    var d := Bought(s, n);
    SceneParts(a, r, s, g, w, n);
    SingleTotals(d, GapKey(a.market, g));
    StockedTotals(a, g, w, n, [d], 3);
    hide TotalsAt, ClaimTotals, ClaimPart;
  }

  lemma BothStand(a: ActorFacts, r: LeaseRequest, s: LeaseRequest, g: Group, w: uint32, n: uint32)
    requires Scene(a, r, s, g, w, n)
    ensures Expired([Bought(s, n), MadeAgain(r, w - n)], 301) == [Bought(s, n), MadeAgain(r, w - n)]
  {
    var d, e := Bought(s, n), MadeAgain(r, w - n);
    assert Lapsed([d, e], 301) == [d, e];
    assert [d, e][..1] == [d] && [d][..0] == [];
    assert Kept([d], 301) == [d];
  }

  /** The last refresh: the trim finds the speculation within bounds, and cuts all production. */
  lemma StockRaised(a: ActorFacts, r: LeaseRequest, s: LeaseRequest, g: Group, w: uint32, n: uint32)
    requires Scene(a, r, s, g, w, n)
    ensures var b := RefreshMarket(Stocked(a, g, n, [Bought(s, n), MadeAgain(r, w - n)], 4), Stock(a, g, w), 301);
            var t := TotalsAt(b, GapKey(a.market, g));
            t.speculation == n && PurchaseNeed(t) == w && t.auction == w
  {
    var k, claims := GapKey(a.market, g), [Bought(s, n), MadeAgain(r, w - n)];
    var before, b := Stocked(a, g, n, claims, 4), Stocked(a, g, w, claims, 4);
    BothStand(a, r, s, g, w, n);
    SceneParts(a, r, s, g, w, n);
    PairTotals(claims[0], claims[1], k);
    StockedTotals(a, g, w, w, claims, 4);
    assert AllOk(claims);
    hide TotalsAt, ClaimTotals, Expired, Trimmed, AllOk, ClaimPart;
    assert Tick(before, 301).(markets := before.markets[a.market := Stock(a, g, w)]) == b;
    TrimmedRestores(b, 301, k);
  }

  function SpeculatingRun(a: ActorFacts, r: LeaseRequest, s: LeaseRequest, g: Group, w: uint32, n: uint32): seq<Call>
  {
    [RefreshActorCall(a, 1, false),
     LeaseCall(r, 1, NoBlocker, Some(1)),
     RecordOutcomeCall(1, FailedTravel, w, 1),
     RefreshMarketCall(Stock(a, g, n), 1),
     LeaseCall(s, 1, NoBlocker, Some(1)),
     LeaseCall(r, 301, NoBlocker, Some(1)),
     RefreshMarketCall(Stock(a, g, w), 301)]
  }

  /** A reachable state where every good at auction is needed and some are leased on speculation. The
      trim compares speculation with the purchase need it starts from, and then cuts the production
      that kept that need down. */
  lemma SpeculationMayOutlastNeed(a: ActorFacts, r: LeaseRequest, s: LeaseRequest, g: Group, w: uint32, n: uint32)
    requires Scene(a, r, s, g, w, n)
    ensures var t := TotalsAt(Run(EmptyBook(), SpeculatingRun(a, r, s, g, w, n)), GapKey(a.market, g));
            t.speculation == n && PurchaseNeed(t) == w && t.auction == w
  {
    hide Run, Step, TotalsAt, Scene, Promised, Alone, Stocked, Bridge, Bought, MadeAgain, Stock, EmptyBook, RefreshActor,
      RefreshMarket, Lease, RecordOutcome, PurchaseNeed;
    var run := SpeculatingRun(a, r, s, g, w, n);
    SceneOpens(a, r, s, g, w, n);
    BridgeStands(a, r, s, g, w, n);
    GoodsListed(a, r, s, g, w, n);
    GoodsBought(a, r, s, g, w, n);
    MadeBesideSpeculation(a, r, s, g, w, n);
    StockRaised(a, r, s, g, w, n);
    NoRun(EmptyBook());
    assert run[..0] == [];
    Advance(EmptyBook(), run, 0);
    Advance(EmptyBook(), run, 1);
    Advance(EmptyBook(), run, 2);
    Advance(EmptyBook(), run, 3);
    Advance(EmptyBook(), run, 4);
    Advance(EmptyBook(), run, 5);
    Advance(EmptyBook(), run, 6);
    assert run[..7] == run;
  }

  lemma SceneOpens(a: ActorFacts, r: LeaseRequest, s: LeaseRequest, g: Group, w: uint32, n: uint32)
    requires Scene(a, r, s, g, w, n)
    ensures RefreshActor(EmptyBook(), a, 1, false) == Alone(a)
    ensures Lease(Alone(a), r, 1, NoBlocker, Some(1)).0 == Promised(a, r, w, 1)
  {
    FirstRefresh(a, g, w, 1);
    LeaseOfAll(a, r, g, w, 1);
    hide RefreshActor, Lease;
  }
}
