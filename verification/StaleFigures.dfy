/**
 Two runs after which what the coordinator shows is not so. 257 gaps compete for 256 chains, one of them
 is closed, and a lease in vain starts a chain for the gap left out, with figures of zero. And a refusal
 leaves a blocker row at a gap that needs nothing.
 */
module StaleFigures {
  import opened Economy
  import opened Gaps
  import opened Claims
  import opened Steps
  import opened Progress
  import opened Chains
  import opened ChainSync
  import opened Coordinator
  import opened Counterexamples

  const CROWD: nat := 257

  function GroupOf(i: nat): Group { Group(ExactReagent, i, 0, 0) }

  function KeyOf(i: nat): GapKey { GapKey(1, GroupOf(i)) }

  function Wanted(idle: nat): seq<DemandFact>
  {
    seq(CROWD, i requires 0 <= i < CROWD => DemandFact(GroupOf(i), if i == idle then 0 else 1))
  }

  function Held(): seq<SupplyFact>
  {
    seq(CROWD, i requires 0 <= i < CROWD => SupplyFact(GroupOf(i), 1, Inventory, 0))
  }

  /** One actor that wants and holds one each of 257 goods, except for one it no longer wants. */
  function Collector(idle: nat): ActorFacts { ActorFacts(1, 1, 1, true, true, [], Wanted(idle), Held()) }

  function CollectorsBook(idle: nat): Book { EmptyBook().(actors := map[1 := Collector(idle)]) }

  lemma {:induction false} WantedOf(demands: seq<DemandFact>, idle: nat, j: nat)
    requires forall i | 0 <= i < |demands| :: demands[i] == DemandFact(GroupOf(i), if i == idle then 0 else 1)
    ensures DemandSum(demands, GroupOf(j)) == if j < |demands| && j != idle then 1 else 0
  {
    if demands == [] {
    } else {
      WantedOf(demands[..|demands| - 1], idle, j);
    }
  }

  lemma {:induction false} HeldOf(supplies: seq<SupplyFact>, j: nat)
    requires forall i | 0 <= i < |supplies| :: supplies[i] == SupplyFact(GroupOf(i), 1, Inventory, 0)
    ensures SupplySum(supplies, GroupOf(j)) == if j < |supplies| then 1 else 0
  {
    if supplies == [] {
    } else {
      HeldOf(supplies[..|supplies| - 1], j);
    }
  }

  lemma CollectorsSums(idle: nat, j: nat)
    requires j < CROWD
    ensures DemandSum(Wanted(idle), GroupOf(j)) == if j == idle then 0 else 1
    ensures SupplySum(Held(), GroupOf(j)) == 1
  {
    WantedOf(Wanted(idle), idle, j);
    HeldOf(Held(), j);
    hide DemandSum, SupplySum;
  }

  lemma CollectorsPart(idle: nat, j: nat)
    requires j < CROWD
    ensures ActorPart(1, Collector(idle), map[], KeyOf(j)) == GapTotals(if j == idle then 0 else 1, 1, 0, 1, 0, 0, 0)
    ensures MarketPart(map[], KeyOf(j)) == Zero()
  {
    hide DemandSum, SupplySum, Wanted, Held;
    CollectorsSums(idle, j);
  }

  lemma CollectorsTotals(idle: nat, j: nat)
    requires j < CROWD
    ensures TotalsAt(CollectorsBook(idle), KeyOf(j)) == GapTotals(if j == idle then 0 else 1, 1, 0, 1, 0, 0, 0)
  {
    hide FactTotals, ClaimTotals, ActorPart, MarketPart, Plus, Wanted, Held, Collector;
    CollectorIsFirst(idle);
    AloneTotals(CollectorsBook(idle), Collector(idle), KeyOf(j));
    NoClaims(KeyOf(j));
    CollectorsPart(idle, j);
    PlusZero(ActorPart(1, Collector(idle), map[], KeyOf(j)));
  }

  lemma CollectorIsFirst(idle: nat)
    ensures Collector(idle).guid == 1
  {
  }

  lemma CollectorsKeys(idle: nat, k: GapKey)
    requires TotalsAt(CollectorsBook(idle), k).demand > 0
    ensures exists j :: 0 <= j < CROWD && k == KeyOf(j)
  {
    if k !in Touched(CollectorsBook(idle)) {
      UntouchedIsZero(CollectorsBook(idle), k);
    } else {
      var a := Collector(idle);
      assert k in ActorKeys(a);
      if d :| d in a.demands && k == GapKey(1, d.group) {
        var i :| 0 <= i < CROWD && d == a.demands[i];
        assert k == KeyOf(i);
      } else {
        var s :| s in a.supplies && k == GapKey(1, s.group);
        var i :| 0 <= i < CROWD && s == a.supplies[i];
        assert k == KeyOf(i);
      }
    }
  }

  // ----- more keys than chains

  function KeysUpTo(n: nat): set<GapKey> { set i | 0 <= i < n :: KeyOf(i) }

  lemma {:induction false} ManyKeys(n: nat)
    ensures |KeysUpTo(n)| == n
  {
    if n == 0 {
    } else {
      ManyKeys(n - 1);
      assert KeysUpTo(n) == KeysUpTo(n - 1) + {KeyOf(n - 1)};
      assert KeyOf(n - 1) !in KeysUpTo(n - 1);
    }
  }

  function KeysOf(chains: seq<Chain>): set<GapKey> { set c | c in chains :: c.key }

  lemma {:induction false} FewKeys(chains: seq<Chain>)
    ensures |KeysOf(chains)| <= |chains|
  {
    if chains == [] {
    } else {
      var n := |chains| - 1;
      FewKeys(chains[..n]);
      assert KeysOf(chains) <= KeysOf(chains[..n]) + {chains[n].key};
      Smaller(KeysOf(chains), KeysOf(chains[..n]) + {chains[n].key});
    }
  }

  lemma {:induction false} Smaller(a: set<GapKey>, b: set<GapKey>)
    requires a <= b
    ensures |a| <= |b|
  {
    assert a + (b - a) == b;
  }

  lemma OneIsLeftOut(r: Registry) returns (j: nat)
    requires RegistryOk(r)
    ensures j < CROWD && KeyOf(j) !in r.index
  {
    if forall i | 0 <= i < CROWD :: KeyOf(i) in r.index {
      forall k | k in KeysUpTo(CROWD)
        ensures k in KeysOf(r.chains)
      {
        assert ActiveFor(r.chains, k, r.index[k]);
        var i :| 0 <= i < |r.chains| && r.chains[i].id == r.index[k] && r.chains[i].active && r.chains[i].key == k;
        assert r.chains[i] in r.chains;
      }
      ManyKeys(CROWD);
      FewKeys(r.chains);
      Smaller(KeysUpTo(CROWD), KeysOf(r.chains));
      assert false;
    }
    j :| j < CROWD && KeyOf(j) !in r.index;
  }

  // ----- the run

  /** The collector's request to make one more of something it already has. */
  function InVain(j: nat): LeaseRequest
  {
    LeaseRequest(1, 1, GroupOf(j), 1, Production, Producer, false, "craft", 0, false, 9, 1, 1, false, false)
  }

  lemma CollectorAsksInVain(idle: nat, j: nat)
    requires j < CROWD && j != idle
    ensures var b := CollectorsBook(idle);
            Tick(b, 2) == b && Served(b, InVain(j), 2, NoBlocker) && AsksInVain(b, InVain(j), 2)
  {
    var b := CollectorsBook(idle);
    CollectorsTotals(idle, j);
    hide TotalsAt, Collector;
    assert Tick(b, 2) == b;
    assert SpeculationReleased(b.claims, KeyOf(j), 2) == b.claims;
  }

  /** After the first refresh every chain is taken, and one wanted group has none. */
  lemma AllTaken(empty: Registry, full: Registry, idle: nat) returns (left: nat, taken: nat)
    requires empty.chains == [] && empty.index == map[] && Follows(empty, full, CollectorsBook(idle), 1) && idle >= CROWD
    ensures RegistryOk(full) && Full(full.chains)
    ensures left < CROWD && KeyOf(left) !in full.index && taken < CROWD && KeyOf(taken) in full.index
  {
    hide Follows, RegistryOk, TotalsAt, CollectorsBook, ShowGaps;
    FollowingRegistry(empty, full, CollectorsBook(idle), 1);
    FirstSyncIsActive(empty, full, CollectorsBook(idle), 1);
    left := OneIsLeftOut(full);
    CollectorsTotals(idle, left);
    ActiveIsIndexed(full);
    assert full.chains[0] in full.chains;
    CollectorsKeys(idle, full.chains[0].key);
    taken :| taken < CROWD && full.chains[0].key == KeyOf(taken);
  }

  /** After the second, the chain of the group no longer wanted is closed, and the one left out before
      still has none. */
  lemma OneIsClosed(full: Registry, after: Registry, left: nat, taken: nat)
    requires RegistryOk(full) && Full(full.chains) && Follows(full, after, CollectorsBook(taken), 2)
    requires left < CROWD && KeyOf(left) !in full.index && taken < CROWD && KeyOf(taken) in full.index
    ensures StartsChain(after, KeyOf(left), TotalsAt(CollectorsBook(taken), KeyOf(left)).demand > 0)
  {
    FollowingRegistry(full, after, CollectorsBook(taken), 2);
    FindActive(full, KeyOf(taken));
    hide Follows, RegistryOk, TotalsAt, CollectorsBook, ShowGaps;
    CollectorsTotals(taken, left);
    CollectorsTotals(taken, taken);
    var c := full.chains[Find(full.chains, full.index[KeyOf(taken)])];
    assert c in full.chains;
    var d :| d in after.chains && d.id == c.id && !d.active;
  }

  lemma FirstCallMatters(idle: nat, stale: bool)
    ensures Steps.RefreshActor(EmptyBook(), Collector(idle), 1, stale) == CollectorsBook(idle)
    ensures RefreshMatters(EmptyBook(), Collector(idle), 1) && Collector(idle).guid != 0
  {
    RefreshWithoutClaims(EmptyBook(), Collector(idle), 1, stale);
    hide Steps.RefreshActor;
  }

  lemma SecondCallMatters(idle: nat, stale: bool)
    requires idle < CROWD
    ensures Steps.RefreshActor(CollectorsBook(CROWD), Collector(idle), 2, stale) == CollectorsBook(idle)
    ensures RefreshMatters(CollectorsBook(CROWD), Collector(idle), 2) && Collector(idle).guid != 0
  {
    RefreshWithoutClaims(CollectorsBook(CROWD), Collector(idle), 2, stale);
    hide Steps.RefreshActor;
    assert CollectorsBook(CROWD).actors[1 := Collector(idle)] == map[1 := Collector(idle)];
    assert Collector(idle).demands[idle] != Collector(CROWD).demands[idle];
  }

  method FillUp() returns (c: Coordinator, left: nat, taken: nat)
    ensures fresh(c) && c.Valid() && c.Facts() == CollectorsBook(CROWD) && Full(c.chains)
    ensures left < CROWD && KeyOf(left) !in c.activeChainIds && taken < CROWD && KeyOf(taken) in c.activeChainIds
  {
    hide RegistryOk, Follows, TotalsAt, Collector, CollectorsBook, Steps.RefreshActor, RefreshMatters, Full, ShowGaps, NeedStands, DirtyAfterExpiry;
    c := new Coordinator();
    ghost var empty := c.Registered();
    ghost var stale := c.DirtyOnceExpired(1);
    c.RefreshActor(Collector(CROWD), 1);
    FirstCallMatters(CROWD, stale);
    ghost var l, t := AllTaken(empty, c.Registered(), CROWD);
    left :| 0 <= left < CROWD && KeyOf(left) !in c.activeChainIds;
    taken :| 0 <= taken < CROWD && KeyOf(taken) in c.activeChainIds;
  }

  method GiveUp(c: Coordinator, left: nat, taken: nat)
    requires c.Valid() && c.Facts() == CollectorsBook(CROWD) && Full(c.chains)
    requires left < CROWD && KeyOf(left) !in c.activeChainIds && taken < CROWD && KeyOf(taken) in c.activeChainIds
    modifies c
    ensures c.Valid() && c.ChainsShowGaps() && !c.chainsDirty && c.Facts() == CollectorsBook(taken)
    ensures StartsChain(c.Registered(), KeyOf(left), TotalsAt(CollectorsBook(taken), KeyOf(left)).demand > 0)
  {
    hide RegistryOk, Follows, TotalsAt, Collector, CollectorsBook, Steps.RefreshActor, RefreshMatters, Full, ShowGaps, NeedStands,
      StartsChain, DirtyAfterExpiry;
    ghost var stale := c.DirtyOnceExpired(2);
    c.RefreshActor(Collector(taken), 2);
    SecondCallMatters(taken, stale);
    OneIsClosed(old(c.Registered()), c.Registered(), left, taken);
  }

  method AskInVain(c: Coordinator, left: nat, taken: nat)
    requires c.Valid() && c.ChainsShowGaps() && !c.chainsDirty && c.Facts() == CollectorsBook(taken) && left < CROWD && left != taken
    requires StartsChain(c.Registered(), KeyOf(left), TotalsAt(CollectorsBook(taken), KeyOf(left)).demand > 0)
    modifies c
    ensures c.Valid() && !c.ChainsShowGaps()
  {
    hide RegistryOk, Follows, TotalsAt, Collector, Steps.Lease, Served, AsksInVain, Full, ShowGaps, NeedStands;
    CollectorAsksInVain(taken, left);
    var result, caught := c.Lease(InVain(left), 2, NoBlocker);
  }

  /** Three calls on a new coordinator, after which an active chain does not show the figures of its gap. */
  method LeaseMayLeaveStaleFigures() returns (c: Coordinator)
    ensures fresh(c) && c.Valid() && !c.ChainsShowGaps()
  {
    hide RegistryOk, TotalsAt, CollectorsBook, StartsChain, Full, ShowGaps;
    var left, taken;
    c, left, taken := FillUp();
    GiveUp(c, left, taken);
    AskInVain(c, left, taken);
  }

  // ----- a blocker row without a need

  lemma NothingKnown(r: LeaseRequest)
    requires !r.Personal()
    ensures Tick(EmptyBook(), 1) == EmptyBook() && UnclaimedNeed(TotalsAt(EmptyBook(), r.Key())) == 0
    ensures forall chain :: WillLeaveRow(EmptyBook(), r, 1, NoBlocker, chain)
  {
    UntouchedIsZero(EmptyBook(), r.Key());
    hide TotalsAt;
  }

  /** One call on a new coordinator: whoever asks is unknown, and the refusal leaves a blocker row at a gap
      that needs nothing. */
  method RefusalMayLeaveIdleRow(r: LeaseRequest) returns (c: Coordinator)
    requires !r.Personal()
    ensures fresh(c) && c.Valid() && !c.BlockersStand()
  {
    hide RegistryOk, Follows, TotalsAt, Steps.Lease, WillLeaveRow, Tick, ShowGaps, NeedStands, Offer, Served, StartsChain, AsksInVain;
    c := new Coordinator();
    NothingKnown(r);
    var result, caught := c.Lease(r, 1, NoBlocker);
  }
}
