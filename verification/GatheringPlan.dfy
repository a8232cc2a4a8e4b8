/**
 Dedicated gathering: a batch is split greedily over ranked candidates, each work order is traced
 back to the origins it serves, and a separately written validator re-checks a plan before anyone
 acts on one of its work orders.
 */
module GatheringPlan {
  import opened Economy

  datatype OriginState = Active | Latent

  datatype Origin = Origin(identity: string, state: OriginState, quantity: uint32, expiresAt: nat)

  datatype Candidate = Candidate(
    guid: uint32,
    capacity: uint32,
    route: uint32,
    recentWork: uint32,
    skill: uint32,
    affinity: uint32,
    successes: uint32,
    attempts: uint32)

  datatype Allocation = Allocation(origin: string, quantity: uint32)

  datatype WorkOrder = WorkOrder(guid: uint32, quantity: uint32, allocations: seq<Allocation>)

  datatype WorkPlan = WorkPlan(orders: seq<WorkOrder>, assignedQuantity: uint32, unassignedQuantity: uint32)

  datatype PlanRequest = PlanRequest(trip: string, observedAt: nat, batch: uint32, origins: seq<Origin>)

  datatype Plan = Plan(
    trip: string,
    observedAt: nat,
    batch: uint32,
    origins: seq<Origin>,
    orders: seq<WorkOrder>,
    assignedQuantity: uint32,
    unassignedQuantity: uint32,
    deferredQuantity: nat,
    latentQuantity: nat)

  /** An origin and how much of it one work order serves. */
  datatype OriginShare = OriginShare(origin: Origin, allocatedQuantity: uint32)

  // ----- ranking

  predicate Eligible(c: Candidate)
  {
    c.guid != 0 && c.capacity != 0
  }

  /** More successes per attempt, compared without dividing. */
  predicate MoreReliable(left: Candidate, right: Candidate)
  {
    left.successes * Max(1, right.attempts) > right.successes * Max(1, left.attempts)
  }

  predicate RankedBefore(left: Candidate, right: Candidate)
  {
    if left.capacity != right.capacity then left.capacity > right.capacity
    else if left.recentWork != right.recentWork then left.recentWork < right.recentWork
    else if left.route != right.route then left.route < right.route
    else if MoreReliable(left, right) || MoreReliable(right, left) then MoreReliable(left, right)
    else if left.skill != right.skill then left.skill > right.skill
    else if left.affinity != right.affinity then left.affinity > right.affinity
    else left.guid < right.guid
  }

  lemma RatioTransitive(a: nat, b: nat, c: nat, d: nat, e: nat, f: nat)
    requires b > 0 && d > 0 && f > 0
    requires a * d <= c * b && c * f <= e * d
    ensures a * f <= e * b
  {
    assert a * d * f <= c * b * f;
    assert c * b * f == (c * f) * b <= (e * d) * b;
    assert (a * f) * d <= (e * b) * d;
  }

  lemma ReliabilityTransitive(a: Candidate, b: Candidate, c: Candidate)
    requires !MoreReliable(a, b) && !MoreReliable(b, c)
    ensures !MoreReliable(a, c)
  {
    RatioTransitive(a.successes, Max(1, a.attempts), b.successes, Max(1, b.attempts), c.successes, Max(1, c.attempts));
  }

  /** The comparison is a weak order. */
  lemma RankingTransitive(a: Candidate, b: Candidate, c: Candidate)
    requires !RankedBefore(a, b) && !RankedBefore(b, c)
    ensures !RankedBefore(a, c)
  {
    hide MoreReliable;
    if a.capacity == b.capacity == c.capacity && a.recentWork == b.recentWork == c.recentWork && a.route == b.route == c.route {
      ReliabilityOrders(a, b, c);
    }
  }

  lemma ReliabilityOrders(a: Candidate, b: Candidate, c: Candidate)
    ensures !(MoreReliable(a, b) && MoreReliable(b, a))
    ensures !(MoreReliable(b, c) && MoreReliable(c, b))
    ensures !MoreReliable(a, b) && !MoreReliable(b, c) ==> !MoreReliable(a, c)
    ensures !MoreReliable(c, b) && !MoreReliable(b, a) ==> !MoreReliable(c, a)
    ensures !MoreReliable(a, c) && !MoreReliable(c, b) ==> !MoreReliable(a, b)
    ensures !MoreReliable(b, a) && !MoreReliable(a, c) ==> !MoreReliable(b, c)
    ensures !MoreReliable(c, a) && !MoreReliable(a, b) ==> !MoreReliable(c, b)
    ensures !MoreReliable(b, c) && !MoreReliable(c, a) ==> !MoreReliable(b, a)
  {
    if !MoreReliable(a, b) && !MoreReliable(b, c) { ReliabilityTransitive(a, b, c); }
    if !MoreReliable(c, b) && !MoreReliable(b, a) { ReliabilityTransitive(c, b, a); }
    if !MoreReliable(a, c) && !MoreReliable(c, b) { ReliabilityTransitive(a, c, b); }
    if !MoreReliable(b, a) && !MoreReliable(a, c) { ReliabilityTransitive(b, a, c); }
    if !MoreReliable(c, a) && !MoreReliable(a, b) { ReliabilityTransitive(c, a, b); }
    if !MoreReliable(b, c) && !MoreReliable(c, a) { ReliabilityTransitive(b, c, a); }
  }

  function InsertRanked(ranked: seq<Candidate>, c: Candidate): (r: seq<Candidate>)
    ensures multiset(r) == multiset(ranked) + multiset{c}
  {
    if ranked == [] then [c]
    else
      var last := ranked[|ranked| - 1];
      assert ranked == ranked[..|ranked| - 1] + [last];
      if RankedBefore(c, last) then InsertRanked(ranked[..|ranked| - 1], c) + [last] else ranked + [c]
  }

  /** The candidates that can take work, best first. */
  function Ranking(candidates: seq<Candidate>): (r: seq<Candidate>)
  {
    if candidates == [] then []
    else
      var n := |candidates| - 1;
      if Eligible(candidates[n]) then InsertRanked(Ranking(candidates[..n]), candidates[n]) else Ranking(candidates[..n])
  }

  function SuccessRate(c: Candidate): real { c.successes as real / Max(1, c.attempts) as real }

  lemma RatesCompare(a: Candidate, b: Candidate)
    ensures SuccessRate(a) > SuccessRate(b) <==> MoreReliable(a, b)
  {
    QuotientsCompare(a.successes, Max(1, a.attempts), b.successes, Max(1, b.attempts));
  }

  lemma QuotientsCompare(a: nat, b: nat, c: nat, d: nat)
    requires b > 0 && d > 0
    ensures a as real / b as real > c as real / d as real <==> a * d > c * b
  {
    var x, y := a as real / b as real, c as real / d as real;
    assert x * b as real == a as real && y * d as real == c as real;
    assert (a * d) as real == x * (b as real * d as real) && (c * b) as real == y * (b as real * d as real);
    ScalingCompares(x, y, b as real * d as real);
  }

  lemma ScalingCompares(x: real, y: real, scale: real)
    requires scale > 0.0
    ensures x > y <==> x * scale > y * scale
  {
  }

  /** A candidate that is no worse than another: it can carry more, or as much and has worked less lately, then
      is nearer, more often successful, more skilled, keener, and at last has the lower guid. */
  predicate NoWorse(a: Candidate, b: Candidate)
  {
    a.capacity > b.capacity || (a.capacity == b.capacity &&
    (a.recentWork < b.recentWork || (a.recentWork == b.recentWork &&
    (a.route < b.route || (a.route == b.route &&
    (SuccessRate(a) > SuccessRate(b) || (SuccessRate(a) == SuccessRate(b) &&
    (a.skill > b.skill || (a.skill == b.skill &&
    (a.affinity > b.affinity || (a.affinity == b.affinity && a.guid <= b.guid)))))))))))
  }

  lemma NoWorseIff(a: Candidate, b: Candidate)
    ensures NoWorse(a, b) <==> !RankedBefore(b, a)
  {
    RatesCompare(a, b);
    RatesCompare(b, a);
    hide MoreReliable, SuccessRate;
  }

  predicate Ranked(s: seq<Candidate>)
  {
    forall i, j | 0 <= i < j < |s| :: NoWorse(s[i], s[j])
  }

  lemma RankedOnce(a: Candidate, b: Candidate)
    requires RankedBefore(a, b)
    ensures !RankedBefore(b, a)
  {
    hide MoreReliable;
    ReliabilityOrders(a, b, b);
  }

  lemma {:induction false} InsertKeepsRanked(s: seq<Candidate>, c: Candidate)
    requires Ranked(s)
    ensures Ranked(InsertRanked(s, c))
  {
    hide RankedBefore, NoWorse;
    if s == [] {
    } else {
      var n := |s| - 1;
      if RankedBefore(c, s[n]) {
        var front := InsertRanked(s[..n], c);
        InsertKeepsRanked(s[..n], c);
        RankedOnce(c, s[n]);
        NoWorseIff(c, s[n]);
        forall i | 0 <= i < |front|
          ensures NoWorse(front[i], s[n])
        {
          assert front[i] in multiset(front);
          assert front[i] == c || front[i] in s[..n];
        }
      } else {
        forall i | 0 <= i <= n
          ensures NoWorse(s[i], c)
        {
          NoWorseIff(s[i], c);
          if i < n {
            NoWorseIff(s[i], s[n]);
            RankingTransitive(c, s[n], s[i]);
          }
        }
      }
    }
  }

  /** The ranking lists exactly the candidates with an identity and some capacity, each no worse than the next. */
  lemma {:induction false} RankingIsRanked(candidates: seq<Candidate>)
    ensures Ranked(Ranking(candidates))
    ensures forall c :: c in Ranking(candidates) <==> c in candidates && c.guid != 0 && c.capacity != 0
  {
    if candidates == [] {
    } else {
      var n := |candidates| - 1;
      RankingIsRanked(candidates[..n]);
      assert candidates == candidates[..n] + [candidates[n]];
      hide RankedBefore, NoWorse;
      if Eligible(candidates[n]) {
        var rest := Ranking(candidates[..n]);
        InsertKeepsRanked(rest, candidates[n]);
        forall c
          ensures c in InsertRanked(rest, candidates[n]) <==> c in rest || c == candidates[n]
        {
          assert c in InsertRanked(rest, candidates[n]) <==> c in multiset(InsertRanked(rest, candidates[n]));
        }
      }
    }
  }

  // ----- the greedy split

  function CapacitySum(s: seq<Candidate>): nat
  {
    if s == [] then 0 else CapacitySum(s[..|s| - 1]) + s[|s| - 1].capacity
  }

  function OrderSum(orders: seq<WorkOrder>): nat
  {
    if orders == [] then 0 else OrderSum(orders[..|orders| - 1]) + orders[|orders| - 1].quantity
  }

  /** The candidate at position i takes what those before it leave, up to its capacity. */
  predicate TakesItsPart(o: WorkOrder, ranked: seq<Candidate>, demand: nat, i: nat)
    requires i < |ranked|
  {
    && o.guid == ranked[i].guid && CapacitySum(ranked[..i]) < demand
    && o.quantity == Min(ranked[i].capacity, demand - CapacitySum(ranked[..i]))
  }

  /** The best candidates are filled to capacity one after the other until the demand is met. */
  predicate Greedy(orders: seq<WorkOrder>, ranked: seq<Candidate>, demand: nat)
  {
    && |orders| <= |ranked|
    && (forall i | 0 <= i < |orders| :: TakesItsPart(orders[i], ranked, demand, i))
    && (|orders| < |ranked| ==> CapacitySum(ranked[..|orders|]) >= demand)
  }

  lemma CapacityNext(ranked: seq<Candidate>, i: nat)
    requires i < |ranked|
    ensures CapacitySum(ranked[..i + 1]) == CapacitySum(ranked[..i]) + ranked[i].capacity
  {
    assert ranked[..i + 1][..i] == ranked[..i];
  }

  lemma OrderSumNext(orders: seq<WorkOrder>, i: nat)
    requires i < |orders|
    ensures OrderSum(orders[..i + 1]) == OrderSum(orders[..i]) + orders[i].quantity
  {
    assert orders[..i + 1][..i] == orders[..i];
  }

  method PlanWork(demand: uint32, candidates: seq<Candidate>) returns (plan: WorkPlan)
    ensures Greedy(plan.orders, Ranking(candidates), demand)
    ensures forall i | 0 <= i < |plan.orders| :: plan.orders[i].allocations == []
    ensures plan.assignedQuantity == OrderSum(plan.orders) == Min(demand, CapacitySum(Ranking(candidates)))
    ensures plan.assignedQuantity + plan.unassignedQuantity == demand
  {
    hide CapacitySum, TakesItsPart;
    var ranked := Ranking(candidates);
    var orders: seq<WorkOrder> := [];
    var placed: nat, left: nat := 0, demand;
    var i := 0;
    NoCapacity(ranked);
    while i < |ranked| && left != 0
      invariant 0 <= i <= |ranked| && i == |orders|
      invariant forall j | 0 <= j < i :: orders[j].allocations == []
      invariant forall j | 0 <= j < i :: TakesItsPart(orders[j], ranked, demand, j)
      invariant placed == OrderSum(orders) == Min(demand, CapacitySum(ranked[..i])) && placed + left == demand
    {
      var order := WorkOrder(ranked[i].guid, Min(ranked[i].capacity, left), []);
      CapacityNext(ranked, i);
      TakesRest(ranked, demand, i, order);
      assert (orders + [order])[..i] == orders;
      orders := orders + [order];
      placed, left := placed + order.quantity, left - order.quantity;
      i := i + 1;
    }
    CapacityGrows(ranked, i);
    assert ranked[..|ranked|] == ranked;
    plan := WorkPlan(orders, placed, left);
  }

  lemma NoCapacity(ranked: seq<Candidate>)
    ensures CapacitySum(ranked[..0]) == 0
  {
  }

  lemma TakesRest(ranked: seq<Candidate>, demand: nat, i: nat, o: WorkOrder)
    requires i < |ranked| && CapacitySum(ranked[..i]) < demand
    requires o == WorkOrder(ranked[i].guid, Min(ranked[i].capacity, demand - CapacitySum(ranked[..i])), [])
    ensures TakesItsPart(o, ranked, demand, i)
  {
  }

  lemma {:induction false} CapacityGrows(s: seq<Candidate>, i: nat)
    requires i <= |s|
    ensures CapacitySum(s[..i]) <= CapacitySum(s)
    decreases |s|
  {
    if i == |s| {
      assert s[..i] == s;
    } else {
      CapacityGrows(s[..|s| - 1], i);
      assert s[..|s| - 1][..i] == s[..i];
    }
  }

  /** How much of the demand the first orders have placed. */
  lemma {:induction false} GreedyPlaced(orders: seq<WorkOrder>, ranked: seq<Candidate>, demand: nat, i: nat)
    requires Greedy(orders, ranked, demand) && i <= |orders|
    ensures OrderSum(orders[..i]) == Min(demand, CapacitySum(ranked[..i]))
  {
    if i == 0 {
    } else {
      GreedyPlaced(orders, ranked, demand, i - 1);
      OrderSumNext(orders, i - 1);
      CapacityNext(ranked, i - 1);
    }
  }

  /** The capacities of ranked candidates picked at increasing positions. */
  function PickedCapacity(ranked: seq<Candidate>, picks: seq<nat>): nat
    requires forall i | 0 <= i < |picks| :: picks[i] < |ranked|
  {
    if picks == [] then 0
    else PickedCapacity(ranked, picks[..|picks| - 1]) + ranked[picks[|picks| - 1]].capacity
  }

  lemma {:induction false} BestAreLargest(ranked: seq<Candidate>, picks: seq<nat>)
    requires Ranked(ranked) && (forall i | 0 <= i < |picks| :: picks[i] < |ranked|)
    requires forall i, j | 0 <= i < j < |picks| :: picks[i] < picks[j]
    ensures |picks| <= |ranked| && (picks != [] ==> |picks| - 1 <= picks[|picks| - 1])
    ensures PickedCapacity(ranked, picks) <= CapacitySum(ranked[..|picks|])
  {
    if picks == [] {
    } else {
      var n := |picks| - 1;
      BestAreLargest(ranked, picks[..n]);
      CapacityNext(ranked, n);
      assert n == 0 || picks[n - 1] < picks[n];
      if n < picks[n] {
        assert NoWorse(ranked[n], ranked[picks[n]]);
      }
    }
  }

  lemma {:induction false} OrdersGrow(orders: seq<WorkOrder>, i: nat)
    requires i <= |orders|
    ensures OrderSum(orders[..i]) <= OrderSum(orders)
    decreases |orders|
  {
    if i == |orders| {
      assert orders[..i] == orders;
    } else {
      OrdersGrow(orders[..|orders| - 1], i);
      assert orders[..|orders| - 1][..i] == orders[..i];
    }
  }

  lemma PlacedBeyond(orders: seq<WorkOrder>, ranked: seq<Candidate>, demand: nat, i: nat)
    requires Greedy(orders, ranked, demand) && i < |orders| && ranked[i].capacity > 0
    ensures OrderSum(orders) > CapacitySum(ranked[..i])
  {
    GreedyPlaced(orders, ranked, demand, i);
    OrderSumNext(orders, i);
    OrdersGrow(orders, i + 1);
  }

  /** No smaller selection of the candidates could take on what the plan assigns. */
  lemma FewestGatherers(orders: seq<WorkOrder>, candidates: seq<Candidate>, demand: nat, picks: seq<nat>)
    requires Greedy(orders, Ranking(candidates), demand)
    requires forall i | 0 <= i < |picks| :: picks[i] < |Ranking(candidates)|
    requires forall i, j | 0 <= i < j < |picks| :: picks[i] < picks[j]
    requires PickedCapacity(Ranking(candidates), picks) >= OrderSum(orders)
    ensures |picks| >= |orders|
  {
    var ranked := Ranking(candidates);
    RankingIsRanked(candidates);
    BestAreLargest(ranked, picks);
    if |picks| < |orders| {
      assert ranked[|picks|] in ranked;
      PlacedBeyond(orders, ranked, demand, |picks|);
    }
  }

  // ----- origins

  function ActiveQuantity(o: Origin): nat { if o.state.Active? then o.quantity else 0 }

  /** The active quantity of the origins before position j. */
  function ActiveBefore(origins: seq<Origin>, j: nat): nat
    requires j <= |origins|
  {
    if j == 0 then 0 else ActiveBefore(origins, j - 1) + ActiveQuantity(origins[j - 1])
  }

  function ActiveTotal(origins: seq<Origin>): nat { ActiveBefore(origins, |origins|) }

  function LatentBefore(origins: seq<Origin>, j: nat): nat
    requires j <= |origins|
  {
    if j == 0 then 0 else LatentBefore(origins, j - 1) + origins[j - 1].quantity - ActiveQuantity(origins[j - 1])
  }

  predicate OriginOk(o: Origin, trip: string, observedAt: nat)
  {
    o.identity != "" && o.identity != trip && o.quantity != 0 && o.expiresAt > observedAt
  }

  predicate Distinct(origins: seq<Origin>)
  {
    forall i, j | 0 <= i < j < |origins| :: origins[i].identity != origins[j].identity
  }

  predicate OriginsOk(origins: seq<Origin>, trip: string, observedAt: nat)
  {
    && (forall i | 0 <= i < |origins| :: OriginOk(origins[i], trip, observedAt))
    && Distinct(origins)
  }

  predicate DistinctCandidates(candidates: seq<Candidate>)
  {
    forall i, j | 0 <= i < j < |candidates| && Eligible(candidates[i]) && Eligible(candidates[j]) ::
      candidates[i].guid != candidates[j].guid
  }

  predicate RequestOk(r: PlanRequest, candidates: seq<Candidate>)
  {
    r.trip != "" && r.batch != 0 && r.origins != [] && DistinctCandidates(candidates) && OriginsOk(r.origins, r.trip, r.observedAt)
  }

  /** A request can be planned exactly if it names a trip and asks for something of some origins; every origin is
      named, by itself and not as the trip, and wants something that has not expired; and no two candidates that
      could take work are the same. */
  lemma RequestOkIff(r: PlanRequest, candidates: seq<Candidate>)
    ensures RequestOk(r, candidates) <==>
            && r.trip != "" && r.batch > 0 && |r.origins| > 0
            && (forall o | o in r.origins :: o.identity != "" && o.identity != r.trip && o.quantity > 0 && o.expiresAt > r.observedAt)
            && (forall i, j | 0 <= i < j < |r.origins| :: r.origins[i].identity != r.origins[j].identity)
            && (forall i, j | 0 <= i < j < |candidates| && candidates[i].guid == candidates[j].guid != 0 ::
                  candidates[i].capacity == 0 || candidates[j].capacity == 0)
  {
    assert forall i | 0 <= i < |r.origins| :: r.origins[i] in r.origins;
  }

  method CheckCandidates(candidates: seq<Candidate>) returns (ok: bool)
    ensures ok <==> DistinctCandidates(candidates)
  {
    var actors: set<uint32> := {};
    for i := 0 to |candidates|
      invariant forall j | 0 <= j < i && Eligible(candidates[j]) :: candidates[j].guid in actors
      invariant forall g | g in actors :: exists j :: 0 <= j < i && Eligible(candidates[j]) && candidates[j].guid == g
      invariant DistinctCandidates(candidates[..i])
    {
      if Eligible(candidates[i]) {
        if candidates[i].guid in actors {
          return false;
        }
        actors := actors + {candidates[i].guid};
      }
    }
    assert candidates[..|candidates|] == candidates;
    return true;
  }

  method CheckOrigins(origins: seq<Origin>, trip: string, observedAt: nat) returns (ok: bool, active: nat, latent: nat)
    ensures ok <==> OriginsOk(origins, trip, observedAt)
    ensures ok ==> active == ActiveTotal(origins) && latent == LatentBefore(origins, |origins|)
  {
    var identities: set<string> := {};
    ok, active, latent := true, 0, 0;
    for i := 0 to |origins|
      invariant ok && active == ActiveBefore(origins, i) && latent == LatentBefore(origins, i)
      invariant identities == set j | 0 <= j < i :: origins[j].identity
      invariant OriginsOk(origins[..i], trip, observedAt)
    {
      var o := origins[i];
      if !OriginOk(o, trip, observedAt) || o.identity in identities {
        ok := false;
        return;
      }
      identities := identities + {o.identity};
      if o.state.Active? {
        active := active + o.quantity;
      } else {
        latent := latent + o.quantity;
      }
    }
    assert origins[..|origins|] == origins;
  }

  // ----- tracing orders back to origins

  /** How much of [a, b) lies in [c, d). */
  function Overlap(a: nat, b: nat, c: nat, d: nat): nat { Minus(Min(b, d), Max(a, c)) }

  /** Lay the active origins end to end: the part of origin j that the stretch [from, to) falls on. */
  function Share(origins: seq<Origin>, j: nat, from: nat, to: nat): (r: uint32)
    requires j < |origins|
    ensures r <= ActiveQuantity(origins[j])
  {
    Overlap(from, to, ActiveBefore(origins, j), ActiveBefore(origins, j + 1))
  }

  /** The parts of the first n origins that a stretch falls on, in list order. */
  function Slices(origins: seq<Origin>, n: nat, from: nat, to: nat): seq<Allocation>
    requires n <= |origins|
  {
    if n == 0 then []
    else
      Slices(origins, n - 1, from, to) +
      if Share(origins, n - 1, from, to) > 0
      then [Allocation(origins[n - 1].identity, Share(origins, n - 1, from, to))] else []
  }

  lemma {:induction false} ActiveGrows(origins: seq<Origin>, i: nat, j: nat)
    requires i <= j <= |origins|
    ensures ActiveBefore(origins, i) <= ActiveBefore(origins, j)
  {
    if i == j {
    } else {
      ActiveGrows(origins, i, j - 1);
    }
  }

  /** Moving the end of a stretch on within origin i changes the share of no other origin. */
  lemma ShareExtends(origins: seq<Origin>, j: nat, i: nat, from: nat, at: nat, to: nat)
    requires j < |origins| && i < |origins|
    requires ActiveBefore(origins, i) <= at < to <= ActiveBefore(origins, i + 1)
    requires from == at || (from <= at && at == ActiveBefore(origins, i))
    ensures Share(origins, j, from, to) == if j == i then to - at else Share(origins, j, from, at)
    ensures Share(origins, i, from, at) == 0
  {
    if j < i {
      ActiveGrows(origins, j + 1, i);
    } else if i < j {
      ActiveGrows(origins, i + 1, j);
    }
  }

  /** It appends one allocation. */
  lemma {:induction false} SlicesExtend(origins: seq<Origin>, n: nat, i: nat, from: nat, at: nat, to: nat)
    requires n <= |origins| && i < |origins|
    requires ActiveBefore(origins, i) <= at < to <= ActiveBefore(origins, i + 1)
    requires from == at || (from <= at && at == ActiveBefore(origins, i))
    ensures Slices(origins, n, from, to) ==
            Slices(origins, n, from, at) + if i < n then [Allocation(origins[i].identity, to - at)] else []
  {
    hide Share, ActiveBefore;
    if n == 0 {
    } else {
      SlicesExtend(origins, n - 1, i, from, at, to);
      ShareExtends(origins, n - 1, i, from, at, to);
      if i < n - 1 {
        NothingBeyond(origins, n - 1, i, from, at, to);
      }
    }
  }

  lemma NothingBeyond(origins: seq<Origin>, j: nat, i: nat, from: nat, at: nat, to: nat)
    requires i < j < |origins| && at < to <= ActiveBefore(origins, i + 1)
    ensures Share(origins, j, from, at) == 0
  {
    ActiveGrows(origins, i + 1, j);
  }

  lemma {:induction false} NoSlices(origins: seq<Origin>, n: nat, at: nat)
    requires n <= |origins|
    ensures Slices(origins, n, at, at) == []
  {
    if n == 0 {
    } else {
      NoSlices(origins, n - 1, at);
    }
  }

  /** Where the allocation loop stands: so much of the origin at an index has been given out. */
  predicate Standing(origins: seq<Origin>, index: nat, taken: nat, at: nat)
  {
    && index <= |origins|
    && (if index == |origins| then taken == 0 else taken <= ActiveQuantity(origins[index]))
    && at == ActiveBefore(origins, index) + taken
  }

  /** Skips latent and exhausted origins. */
  method NextOrigin(origins: seq<Origin>, start: nat, startTaken: nat, ghost at: nat) returns (index: nat, taken: nat)
    requires Standing(origins, start, startTaken, at)
    ensures Standing(origins, index, taken, at)
    ensures index < |origins| ==> taken < ActiveQuantity(origins[index])
    ensures taken == 0 || (index == start && taken == startTaken)
  {
    index, taken := start, startTaken;
    while index < |origins| && (origins[index].state.Latent? || taken == origins[index].quantity)
      invariant Standing(origins, index, taken, at)
      invariant taken == 0 || (index == start && taken == startTaken)
      decreases |origins| - index
    {
      index, taken := index + 1, 0;
    }
  }

  method AllocateOrder(quantity: uint32, origins: seq<Origin>, start: nat, startTaken: nat, ghost from: nat)
    returns (allocations: Option<seq<Allocation>>, index: nat, taken: nat)
    requires Standing(origins, start, startTaken, from)
    ensures allocations.None? <==> from + quantity > ActiveTotal(origins)
    ensures allocations.Some? ==> allocations.value == Slices(origins, |origins|, from, from + quantity)
    ensures allocations.Some? ==> Standing(origins, index, taken, from + quantity)
  {
    hide Share, Slices, ActiveQuantity, ActiveBefore;
    var list: seq<Allocation> := [];
    var remaining: nat := quantity;
    ghost var at := from;
    index, taken := start, startTaken;
    NoSlices(origins, |origins|, from);
    while remaining != 0
      invariant remaining <= quantity && at == from + quantity - remaining && Standing(origins, index, taken, at)
      invariant list == Slices(origins, |origins|, from, at)
      invariant at == from || remaining == 0 || (index < |origins| && taken == ActiveQuantity(origins[index]))
    {
      index, taken := NextOrigin(origins, index, taken, at);
      if index == |origins| {
        allocations := None;
        return;
      }
      ActiveIsWhole(origins, index, taken);
      var given := Min(remaining, origins[index].quantity - taken);
      SlicesExtend(origins, |origins|, index, from, at, at + given);
      list := list + [Allocation(origins[index].identity, given)];
      taken, remaining, at := taken + given, remaining - given, at + given;
    }
    StandsWithin(origins, index, taken, at);
    allocations := Some(list);
  }

  lemma ActiveIsWhole(origins: seq<Origin>, index: nat, taken: nat)
    requires index < |origins| && taken < ActiveQuantity(origins[index])
    ensures ActiveQuantity(origins[index]) == origins[index].quantity
    ensures ActiveBefore(origins, index + 1) == ActiveBefore(origins, index) + origins[index].quantity
  {
  }

  lemma StandsWithin(origins: seq<Origin>, index: nat, taken: nat, at: nat)
    requires Standing(origins, index, taken, at)
    ensures at <= ActiveTotal(origins)
  {
    if index < |origins| {
      ActiveGrows(origins, index + 1, |origins|);
    }
  }

  // ----- the whole plan

  /** Each order's allocations are the slices its stretch of the batch falls on. */
  predicate Traced(orders: seq<WorkOrder>, origins: seq<Origin>)
  {
    forall m | 0 <= m < |orders| :: TracedOrder(orders, origins, m)
  }

  predicate TracedOrder(orders: seq<WorkOrder>, origins: seq<Origin>, m: nat)
    requires m < |orders|
  {
    var from := OrderSum(orders[..m]);
    orders[m].allocations == Slices(origins, |origins|, from, from + orders[m].quantity)
  }

  function Executable(batch: uint32, origins: seq<Origin>): uint32
  {
    Min(batch, ActiveTotal(origins))
  }

  /** What planning promises about a plan. */
  predicate Planned(plan: Plan, r: PlanRequest, candidates: seq<Candidate>)
  {
    && plan.trip == r.trip && plan.observedAt == r.observedAt && plan.batch == r.batch && plan.origins == r.origins
    && Greedy(plan.orders, Ranking(candidates), Executable(r.batch, r.origins))
    && Traced(plan.orders, plan.origins)
    && FiguresOk(plan)
  }

  predicate FiguresOk(plan: Plan)
  {
    var executable := Executable(plan.batch, plan.origins);
    && plan.assignedQuantity == OrderSum(plan.orders)
    && plan.assignedQuantity + plan.unassignedQuantity == executable
    && executable + plan.deferredQuantity == ActiveTotal(plan.origins)
    && plan.latentQuantity == LatentBefore(plan.origins, |plan.origins|)
  }

  method AllocateOrders(orders: seq<WorkOrder>, origins: seq<Origin>) returns (r: Option<seq<WorkOrder>>)
    ensures r.None? <==> OrderSum(orders) > ActiveTotal(origins)
    ensures r.Some? ==> SameWork(orders, r.value) && Traced(r.value, origins)
  {
    hide Slices, ActiveBefore, OrderSum;
    var traced: seq<WorkOrder> := [];
    var index, taken := 0, 0;
    StartStanding(origins, orders);
    for m := 0 to |orders|
      invariant |traced| == m && SameWork(orders[..m], traced) && Traced(traced, origins)
      invariant Standing(origins, index, taken, OrderSum(orders[..m]))
    {
      OrderSumNext(orders, m);
      OrdersGrow(orders, m + 1);
      SameSum(orders[..m], traced);
      var allocations;
      allocations, index, taken := AllocateOrder(orders[m].quantity, origins, index, taken, OrderSum(orders[..m]));
      if allocations.None? {
        r := None;
        return;
      }
      var order := orders[m].(allocations := allocations.value);
      TracedNext(traced, order, origins);
      traced := traced + [order];
    }
    assert orders[..|orders|] == orders;
    StandsWithin(origins, index, taken, OrderSum(orders));
    r := Some(traced);
  }

  predicate SameWork(orders: seq<WorkOrder>, traced: seq<WorkOrder>)
  {
    |orders| == |traced| && forall i | 0 <= i < |orders| :: traced[i] == orders[i].(allocations := traced[i].allocations)
  }

  lemma {:induction false} SameSum(orders: seq<WorkOrder>, traced: seq<WorkOrder>)
    requires SameWork(orders, traced)
    ensures OrderSum(traced) == OrderSum(orders)
  {
    if orders == [] {
    } else {
      SameSum(orders[..|orders| - 1], traced[..|orders| - 1]);
    }
  }

  lemma StartStanding(origins: seq<Origin>, orders: seq<WorkOrder>)
    ensures Standing(origins, 0, 0, OrderSum(orders[..0]))
  {
  }

  lemma TracedStays(traced: seq<WorkOrder>, order: WorkOrder, origins: seq<Origin>, m: nat)
    requires m < |traced| && TracedOrder(traced, origins, m)
    ensures TracedOrder(traced + [order], origins, m)
  {
    hide Slices, OrderSum;
    assert (traced + [order])[..m] == traced[..m];
  }

  lemma TracedLast(traced: seq<WorkOrder>, order: WorkOrder, origins: seq<Origin>)
    requires order.allocations == Slices(origins, |origins|, OrderSum(traced), OrderSum(traced) + order.quantity)
    ensures TracedOrder(traced + [order], origins, |traced|)
  {
    hide Slices, OrderSum;
    assert (traced + [order])[..|traced|] == traced;
  }

  lemma TracedNext(traced: seq<WorkOrder>, order: WorkOrder, origins: seq<Origin>)
    requires Traced(traced, origins)
    requires order.allocations == Slices(origins, |origins|, OrderSum(traced), OrderSum(traced) + order.quantity)
    ensures Traced(traced + [order], origins)
  {
    hide TracedOrder, Slices, OrderSum;
    forall m | 0 <= m < |traced| + 1
      ensures TracedOrder(traced + [order], origins, m)
    {
      if m < |traced| {
        TracedStays(traced, order, origins, m);
      } else {
        TracedLast(traced, order, origins);
      }
    }
  }

  lemma GreedyIgnoresAllocations(orders: seq<WorkOrder>, traced: seq<WorkOrder>, ranked: seq<Candidate>, demand: nat)
    requires SameWork(orders, traced) && Greedy(orders, ranked, demand)
    ensures Greedy(traced, ranked, demand)
  {
    hide CapacitySum;
    forall i | 0 <= i < |traced|
      ensures TakesItsPart(traced[i], ranked, demand, i)
    {
      assert TakesItsPart(orders[i], ranked, demand, i);
    }
  }

  /** A plan comes back exactly when the request passes its checks: origins never run out. */
  method PlanFromOrigins(r: PlanRequest, candidates: seq<Candidate>) returns (plan: Option<Plan>)
    ensures plan.Some? <==> RequestOk(r, candidates)
    ensures plan.Some? ==> Planned(plan.value, r, candidates)
  {
    hide OriginsOk, Greedy, Traced, SameWork, DistinctCandidates;
    plan := None;
    if r.trip == "" || r.batch == 0 || r.origins == [] {
      return;
    }
    var distinct := CheckCandidates(candidates);
    if !distinct {
      return;
    }
    var ok, active, latent := CheckOrigins(r.origins, r.trip, r.observedAt);
    if !ok {
      return;
    }
    var executable: uint32 := Min(r.batch, active);
    var base := PlanWork(executable, candidates);
    var traced := AllocateOrders(base.orders, r.origins);
    if traced.None? {
      return;
    }
    SameSum(base.orders, traced.value);
    GreedyIgnoresAllocations(base.orders, traced.value, Ranking(candidates), executable);
    plan := Some(Plan(r.trip, r.observedAt, r.batch, r.origins, traced.value, base.assignedQuantity,
                      base.unassignedQuantity, active - executable, latent));
  }

  // ----- the validator

  function AllocationOf(allocations: seq<Allocation>, identity: string): nat
  {
    if allocations == [] then 0
    else
      var last := allocations[|allocations| - 1];
      AllocationOf(allocations[..|allocations| - 1], identity) + if last.origin == identity then last.quantity else 0
  }

  function AllocationSum(allocations: seq<Allocation>): nat
  {
    if allocations == [] then 0
    else AllocationSum(allocations[..|allocations| - 1]) + allocations[|allocations| - 1].quantity
  }

  /** What all orders together allocate to one origin. */
  function AllocatedTo(orders: seq<WorkOrder>, identity: string): nat
  {
    if orders == [] then 0
    else AllocatedTo(orders[..|orders| - 1], identity) + AllocationOf(orders[|orders| - 1].allocations, identity)
  }

  predicate IsActive(origins: seq<Origin>, identity: string)
  {
    exists j :: 0 <= j < |origins| && origins[j].identity == identity && origins[j].state.Active?
  }

  predicate AllocationsOk(allocations: seq<Allocation>, origins: seq<Origin>)
  {
    && (forall i | 0 <= i < |allocations| :: allocations[i].quantity != 0 && IsActive(origins, allocations[i].origin))
    && (forall i, j | 0 <= i < j < |allocations| :: allocations[i].origin != allocations[j].origin)
  }

  predicate OrderOk(o: WorkOrder, origins: seq<Origin>)
  {
    o.guid != 0 && o.quantity != 0 && AllocationsOk(o.allocations, origins) && AllocationSum(o.allocations) == o.quantity
  }

  predicate NoneOverAllocated(orders: seq<WorkOrder>, origins: seq<Origin>)
  {
    forall j | 0 <= j < |origins| && origins[j].state.Active? :: AllocatedTo(orders, origins[j].identity) <= origins[j].quantity
  }

  predicate OrdersOk(orders: seq<WorkOrder>, origins: seq<Origin>)
  {
    && (forall m | 0 <= m < |orders| :: OrderOk(orders[m], origins))
    && (forall m, n | 0 <= m < n < |orders| :: orders[m].guid != orders[n].guid)
    && NoneOverAllocated(orders, origins)
  }

  /** What the validator demands of a plan before it traces one of its orders. */
  predicate Accepted(plan: Plan, order: WorkOrder)
  {
    && plan.trip != "" && plan.batch != 0 && plan.origins != [] && order.guid != 0 && order.quantity != 0
    && order in plan.orders
    && OriginsOk(plan.origins, plan.trip, plan.observedAt)
    && OrdersOk(plan.orders, plan.origins)
    && FiguresOk(plan)
  }

  /** The active origins by identity, as the validator collects them. */
  ghost predicate ActiveMap(active: map<string, uint32>, origins: seq<Origin>)
  {
    && (forall id :: id in active <==> IsActive(origins, id))
    && (forall j | 0 <= j < |origins| && origins[j].state.Active? :: active[origins[j].identity] == origins[j].quantity)
  }

  method CollectActive(origins: seq<Origin>) returns (active: map<string, uint32>)
    requires Distinct(origins)
    ensures ActiveMap(active, origins)
  {
    active := map[];
    for i := 0 to |origins|
      invariant forall id | id in active :: exists j :: 0 <= j < i && origins[j].identity == id && origins[j].state.Active?
      invariant forall j | 0 <= j < i && origins[j].state.Active? ::
                  origins[j].identity in active && active[origins[j].identity] == origins[j].quantity
    {
      if origins[i].state.Active? {
        active := active[origins[i].identity := origins[i].quantity];
      }
    }
  }

  function Lookup(totals: map<string, nat>, identity: string): nat
  {
    if identity in totals then totals[identity] else 0
  }

  predicate Within(totals: map<string, nat>, active: map<string, uint32>)
  {
    forall id | id in active :: Lookup(totals, id) <= active[id]
  }

  /** The allocations name active origins, each once. */
  predicate NamesActive(allocations: seq<Allocation>, active: map<string, uint32>)
  {
    && (forall i | 0 <= i < |allocations| :: allocations[i].quantity != 0 && allocations[i].origin in active)
    && (forall i, j | 0 <= i < j < |allocations| :: allocations[i].origin != allocations[j].origin)
  }

  predicate FitsBeside(allocations: seq<Allocation>, before: map<string, nat>, active: map<string, uint32>)
  {
    forall id | id in active :: Lookup(before, id) + AllocationOf(allocations, id) <= active[id]
  }

  lemma AllocationNext(list: seq<Allocation>, i: nat, identity: string)
    requires i < |list|
    ensures AllocationOf(list[..i + 1], identity) ==
            AllocationOf(list[..i], identity) + if list[i].origin == identity then list[i].quantity else 0
    ensures AllocationSum(list[..i + 1]) == AllocationSum(list[..i]) + list[i].quantity
  {
    assert list[..i + 1][..i] == list[..i];
  }

  lemma {:induction false} AllocationsGrow(list: seq<Allocation>, i: nat, identity: string)
    requires i <= |list|
    ensures AllocationOf(list[..i], identity) <= AllocationOf(list, identity)
    decreases |list|
  {
    if i == |list| {
      assert list[..i] == list;
    } else {
      AllocationsGrow(list[..|list| - 1], i, identity);
      assert list[..|list| - 1][..i] == list[..i];
    }
  }

  /** Checks one order's allocations, adding them to the running totals. */
  method CheckAllocations(list: seq<Allocation>, active: map<string, uint32>, before: map<string, nat>)
    returns (ok: bool, totals: map<string, nat>, sum: nat)
    requires Within(before, active)
    ensures ok <==> NamesActive(list, active) && FitsBeside(list, before, active)
    ensures ok ==> sum == AllocationSum(list) && Within(totals, active)
    ensures ok ==> forall id :: Lookup(totals, id) == Lookup(before, id) + AllocationOf(list, id)
  {
    hide AllocationOf, AllocationSum;
    var named: set<string> := {};
    ok, totals, sum := true, before, 0;
    NoAllocation(list);
    for i := 0 to |list|
      invariant ok && sum == AllocationSum(list[..i]) && Within(totals, active)
      invariant named == set j | 0 <= j < i :: list[j].origin
      invariant NamesActive(list[..i], active)
      invariant forall id :: Lookup(totals, id) == Lookup(before, id) + AllocationOf(list[..i], id)
    {
      var a := list[i];
      if a.quantity == 0 || a.origin !in active || a.origin in named {
        ok := false;
        return;
      }
      forall id
        ensures AllocationOf(list[..i + 1], id) == AllocationOf(list[..i], id) + if a.origin == id then a.quantity else 0
      {
        AllocationNext(list, i, id);
      }
      AllocationNext(list, i, a.origin);
      named := named + {a.origin};
      sum := sum + a.quantity;
      totals := totals[a.origin := Lookup(totals, a.origin) + a.quantity];
      if totals[a.origin] > active[a.origin] {
        AllocationsGrow(list, i + 1, a.origin);
        ok := false;
        return;
      }
    }
    assert list[..|list|] == list;
  }

  lemma NoAllocation(list: seq<Allocation>)
    ensures AllocationSum(list[..0]) == 0 && forall id :: AllocationOf(list[..0], id) == 0
  {
  }

  lemma AllocatedNext(orders: seq<WorkOrder>, m: nat, identity: string)
    requires m < |orders|
    ensures AllocatedTo(orders[..m + 1], identity) ==
            AllocatedTo(orders[..m], identity) + AllocationOf(orders[m].allocations, identity)
  {
    assert orders[..m + 1][..m] == orders[..m];
  }

  lemma {:induction false} AllocatedGrows(orders: seq<WorkOrder>, m: nat, identity: string)
    requires m <= |orders|
    ensures AllocatedTo(orders[..m], identity) <= AllocatedTo(orders, identity)
    decreases |orders|
  {
    if m == |orders| {
      assert orders[..m] == orders;
    } else {
      AllocatedGrows(orders[..|orders| - 1], m, identity);
      assert orders[..|orders| - 1][..m] == orders[..m];
    }
  }

  lemma NamesActiveIsOk(list: seq<Allocation>, active: map<string, uint32>, origins: seq<Origin>)
    requires ActiveMap(active, origins)
    ensures NamesActive(list, active) <==> AllocationsOk(list, origins)
  {
    hide IsActive;
  }

  /** An order that does not fit beside those before it leaves some origin over-allocated. */
  lemma MisfitOverAllocates(orders: seq<WorkOrder>, m: nat, origins: seq<Origin>, active: map<string, uint32>, before: map<string, nat>)
    requires m < |orders| && ActiveMap(active, origins)
    requires forall id :: Lookup(before, id) == AllocatedTo(orders[..m], id)
    requires !FitsBeside(orders[m].allocations, before, active)
    ensures !NoneOverAllocated(orders, origins)
  {
    hide AllocatedTo, AllocationOf;
    var id :| id in active && Lookup(before, id) + AllocationOf(orders[m].allocations, id) > active[id];
    assert IsActive(origins, id);
    var j :| 0 <= j < |origins| && origins[j].identity == id && origins[j].state.Active?;
    AllocatedNext(orders, m, id);
    AllocatedGrows(orders, m + 1, id);
  }

  method CheckOrders(orders: seq<WorkOrder>, origins: seq<Origin>, active: map<string, uint32>) returns (ok: bool, total: nat)
    requires ActiveMap(active, origins)
    ensures ok <==> OrdersOk(orders, origins)
    ensures ok ==> total == OrderSum(orders)
  {
    hide AllocatedTo, AllocationOf, AllocationSum, NamesActive, FitsBeside, AllocationsOk, IsActive, NoneOverAllocated, OrderSum;
    var actors: set<uint32>, totals: map<string, nat> := {}, map[];
    ok, total := true, 0;
    NothingAllocated(orders, active);
    for m := 0 to |orders|
      invariant ok && total == OrderSum(orders[..m]) && Within(totals, active)
      invariant actors == set n | 0 <= n < m :: orders[n].guid
      invariant forall n | 0 <= n < m :: OrderOk(orders[n], origins)
      invariant forall n, l | 0 <= n < l < m :: orders[n].guid != orders[l].guid
      invariant forall id :: Lookup(totals, id) == AllocatedTo(orders[..m], id)
    {
      var o := orders[m];
      if o.guid == 0 || o.quantity == 0 || o.guid in actors {
        ok := false;
        return;
      }
      actors := actors + {o.guid};
      NamesActiveIsOk(o.allocations, active, origins);
      ghost var before := totals;
      var fits, sum;
      fits, totals, sum := CheckAllocations(o.allocations, active, totals);
      if !fits {
        if NamesActive(o.allocations, active) {
          MisfitOverAllocates(orders, m, origins, active, before);
        }
        ok := false;
        return;
      }
      if sum != o.quantity {
        ok := false;
        return;
      }
      forall id
        ensures AllocatedTo(orders[..m + 1], id) == AllocatedTo(orders[..m], id) + AllocationOf(o.allocations, id)
      {
        AllocatedNext(orders, m, id);
      }
      OrderSumNext(orders, m);
      total := total + o.quantity;
    }
    assert orders[..|orders|] == orders;
    WithinIsEnough(orders, origins, active, totals);
  }

  lemma NothingAllocated(orders: seq<WorkOrder>, active: map<string, uint32>)
    ensures OrderSum(orders[..0]) == 0 && Within(map[], active)
    ensures forall id :: AllocatedTo(orders[..0], id) == 0
  {
  }

  lemma WithinIsEnough(orders: seq<WorkOrder>, origins: seq<Origin>, active: map<string, uint32>, totals: map<string, nat>)
    requires ActiveMap(active, origins) && Within(totals, active)
    requires forall id :: Lookup(totals, id) == AllocatedTo(orders, id)
    ensures NoneOverAllocated(orders, origins)
  {
    hide AllocatedTo;
    forall j | 0 <= j < |origins| && origins[j].state.Active?
      ensures AllocatedTo(orders, origins[j].identity) <= origins[j].quantity
    {
      assert IsActive(origins, origins[j].identity);
      assert Lookup(totals, origins[j].identity) == AllocatedTo(orders, origins[j].identity);
    }
  }

  /** The origins of a plan, each with what the order takes from it. */
  predicate ProvenanceOf(shares: seq<OriginShare>, origins: seq<Origin>, order: WorkOrder)
  {
    && |shares| == |origins|
    && forall j | 0 <= j < |origins| ::
         shares[j].origin == origins[j] && shares[j].allocatedQuantity == AllocationOf(order.allocations, origins[j].identity)
  }

  method TraceOrder(origins: seq<Origin>, order: WorkOrder) returns (shares: seq<OriginShare>)
    requires OrderOk(order, origins)
    ensures ProvenanceOf(shares, origins, order)
  {
    hide AllocationOf, AllocationSum, IsActive;
    var taken: map<string, uint32> := map[];
    var list := order.allocations;
    NoAllocation(list);
    for i := 0 to |list|
      invariant forall id :: AllocationOf(list[..i], id) == if id in taken then taken[id] else 0
      invariant forall id | id in taken :: exists j :: 0 <= j < i && list[j].origin == id
    {
      forall id
        ensures AllocationOf(list[..i + 1], id) == AllocationOf(list[..i], id) + if list[i].origin == id then list[i].quantity else 0
      {
        AllocationNext(list, i, id);
      }
      taken := taken[list[i].origin := list[i].quantity];
    }
    assert list[..|list|] == list;
    shares := [];
    for j := 0 to |origins|
      invariant ProvenanceOf(shares, origins[..j], order)
    {
      var id := origins[j].identity;
      shares := shares + [OriginShare(origins[j], if id in taken then taken[id] else 0)];
    }
    assert origins[..|origins|] == origins;
  }

  /** Answers for exactly the accepted plans, with what each origin contributes to the order. */
  method ProvenanceForWorkOrder(plan: Plan, order: WorkOrder) returns (shares: Option<seq<OriginShare>>)
    ensures shares.Some? <==> Accepted(plan, order)
    ensures shares.Some? ==> ProvenanceOf(shares.value, plan.origins, order)
  {
    hide OriginsOk, OrderOk, ProvenanceOf, NoneOverAllocated, ActiveBefore, LatentBefore, OrderSum, ActiveMap;
    shares := None;
    if plan.trip == "" || plan.batch == 0 || plan.origins == [] || order.guid == 0 || order.quantity == 0 || order !in plan.orders {
      return;
    }
    var originsOk, active, latent := CheckOrigins(plan.origins, plan.trip, plan.observedAt);
    if !originsOk {
      return;
    }
    OkIsDistinct(plan.origins, plan.trip, plan.observedAt);
    var byIdentity := CollectActive(plan.origins);
    var ordersOk, total := CheckOrders(plan.orders, plan.origins, byIdentity);
    if !ordersOk {
      return;
    }
    var executable := Min(plan.batch, active);
    if total != plan.assignedQuantity || total > executable || plan.unassignedQuantity != executable - total ||
       plan.deferredQuantity != active - executable || plan.latentQuantity != latent {
      return;
    }
    var value := TraceOrder(plan.origins, order);
    shares := Some(value);
  }

  lemma OkIsDistinct(origins: seq<Origin>, trip: string, observedAt: nat)
    requires OriginsOk(origins, trip, observedAt)
    ensures Distinct(origins)
  {
  }

  // ----- every order of every plan is accepted

  lemma AllocationAppended(list: seq<Allocation>, a: Allocation, identity: string)
    ensures AllocationSum(list + [a]) == AllocationSum(list) + a.quantity
    ensures AllocationOf(list + [a], identity) == AllocationOf(list, identity) + if a.origin == identity then a.quantity else 0
  {
    assert (list + [a])[..|list|] == list;
  }

  lemma OverlapSplits(a: nat, b: nat, c: nat, d: nat)
    requires a <= b && c <= d
    ensures Overlap(a, b, 0, c) + Overlap(a, b, c, d) == Overlap(a, b, 0, d)
  {
  }

  lemma SlicesLast(origins: seq<Origin>, n: nat, from: nat, to: nat, identity: string)
    requires 0 < n <= |origins|
    ensures AllocationSum(Slices(origins, n, from, to)) ==
            AllocationSum(Slices(origins, n - 1, from, to)) + Share(origins, n - 1, from, to)
    ensures AllocationOf(Slices(origins, n, from, to), identity) ==
            AllocationOf(Slices(origins, n - 1, from, to), identity) +
            if origins[n - 1].identity == identity then Share(origins, n - 1, from, to) else 0
  {
    hide Share, AllocationOf, AllocationSum;
    var rest := Slices(origins, n - 1, from, to);
    assert rest + [] == rest;
    AllocationAppended(rest, Allocation(origins[n - 1].identity, Share(origins, n - 1, from, to)), identity);
  }

  lemma {:induction false} SliceAmounts(origins: seq<Origin>, n: nat, from: nat, to: nat)
    requires n <= |origins| && from <= to
    ensures AllocationSum(Slices(origins, n, from, to)) == Overlap(from, to, 0, ActiveBefore(origins, n))
  {
    if n == 0 {
    } else {
      SliceAmounts(origins, n - 1, from, to);
      SlicesLast(origins, n, from, to, "");
      OverlapSplits(from, to, ActiveBefore(origins, n - 1), ActiveBefore(origins, n));
    }
  }

  /** A slice belongs to an active origin before n. */
  predicate SliceOf(a: Allocation, origins: seq<Origin>, n: nat, from: nat, to: nat)
    requires n <= |origins|
  {
    a.quantity != 0 &&
    exists j :: 0 <= j < n && a.origin == origins[j].identity && a.quantity == Share(origins, j, from, to) && origins[j].state.Active?
  }

  lemma {:induction false} SlicesWellFormed(origins: seq<Origin>, n: nat, from: nat, to: nat)
    requires n <= |origins| && Distinct(origins)
    ensures forall i | 0 <= i < |Slices(origins, n, from, to)| :: SliceOf(Slices(origins, n, from, to)[i], origins, n, from, to)
    ensures forall i, j | 0 <= i < j < |Slices(origins, n, from, to)| ::
              Slices(origins, n, from, to)[i].origin != Slices(origins, n, from, to)[j].origin
  {
    if n == 0 {
    } else {
      SlicesWellFormed(origins, n - 1, from, to);
      hide Share;
      var rest := Slices(origins, n - 1, from, to);
      forall i | 0 <= i < |rest|
        ensures SliceOf(rest[i], origins, n, from, to) && rest[i].origin != origins[n - 1].identity
      {
        assert SliceOf(rest[i], origins, n - 1, from, to);
      }
    }
  }

  lemma TracedIsAllocationsOk(origins: seq<Origin>, from: nat, to: nat)
    requires Distinct(origins)
    ensures AllocationsOk(Slices(origins, |origins|, from, to), origins)
  {
    SlicesWellFormed(origins, |origins|, from, to);
    hide Slices, Share;
    var slices := Slices(origins, |origins|, from, to);
    forall i | 0 <= i < |slices|
      ensures slices[i].quantity != 0 && IsActive(origins, slices[i].origin)
    {
      assert SliceOf(slices[i], origins, |origins|, from, to);
    }
  }

  lemma {:induction false} SlicesOfOne(origins: seq<Origin>, n: nat, from: nat, to: nat, j: nat)
    requires n <= |origins| && j < |origins| && Distinct(origins)
    ensures AllocationOf(Slices(origins, n, from, to), origins[j].identity) == if j < n then Share(origins, j, from, to) else 0
  {
    if n == 0 {
    } else {
      SlicesOfOne(origins, n - 1, from, to, j);
      SlicesLast(origins, n, from, to, origins[j].identity);
      hide Slices, Share, AllocationOf;
    }
  }

  lemma OverlapAppends(a: nat, b: nat, c: nat, d: nat)
    requires a <= b && c <= d
    ensures Overlap(0, a, c, d) + Overlap(a, b, c, d) == Overlap(0, b, c, d)
  {
  }

  lemma ShareFromStart(origins: seq<Origin>, j: nat, total: nat)
    requires j < |origins|
    ensures Share(origins, j, 0, total) ==
            if origins[j].state.Active? then Min(origins[j].quantity, Minus(total, ActiveBefore(origins, j))) else 0
  {
  }

  /** Origins fill in list order: an active origin gets what the assigned quantity leaves it after those before
      it, up to what it wants, and a latent one nothing. */
  lemma OriginsFillInOrder(orders: seq<WorkOrder>, origins: seq<Origin>, j: nat)
    requires Traced(orders, origins) && Distinct(origins) && j < |origins|
    ensures AllocatedTo(orders, origins[j].identity) ==
            if origins[j].state.Active? then Min(origins[j].quantity, Minus(OrderSum(orders), ActiveBefore(origins, j))) else 0
  {
    OriginsAreServed(orders, origins, j);
    ShareFromStart(origins, j, OrderSum(orders));
    hide Traced, AllocatedTo, Share, ActiveBefore, OrderSum;
  }

  lemma {:induction false} OriginsAreServed(orders: seq<WorkOrder>, origins: seq<Origin>, j: nat)
    requires Traced(orders, origins) && Distinct(origins) && j < |origins|
    ensures AllocatedTo(orders, origins[j].identity) == Share(origins, j, 0, OrderSum(orders))
  {
    if orders == [] {
    } else {
      var n := |orders| - 1;
      var from := OrderSum(orders[..n]);
      TracedPrefix(orders, origins, n);
      OriginsAreServed(orders[..n], origins, j);
      assert TracedOrder(orders, origins, n);
      SlicesOfOne(origins, |origins|, from, from + orders[n].quantity, j);
      OverlapAppends(from, from + orders[n].quantity, ActiveBefore(origins, j), ActiveBefore(origins, j + 1));
    }
  }

  lemma TracedPrefix(orders: seq<WorkOrder>, origins: seq<Origin>, n: nat)
    requires Traced(orders, origins) && n <= |orders|
    ensures Traced(orders[..n], origins)
  {
    hide Slices, OrderSum;
    forall m | 0 <= m < n
      ensures TracedOrder(orders[..n], origins, m)
    {
      assert TracedOrder(orders, origins, m);
      assert orders[..n][..m] == orders[..m];
    }
  }

  lemma OrderHasWork(plan: Plan, r: PlanRequest, candidates: seq<Candidate>, m: nat)
    requires Planned(plan, r, candidates) && m < |plan.orders|
    ensures plan.orders[m].guid != 0 && plan.orders[m].quantity != 0
  {
    hide CapacitySum, Traced, FiguresOk, Ranking;
    RankingIsRanked(candidates);
    assert TakesItsPart(plan.orders[m], Ranking(candidates), Executable(r.batch, r.origins), m);
    assert Ranking(candidates)[m] in Ranking(candidates);
  }

  lemma OrderWithinActive(plan: Plan, m: nat)
    requires FiguresOk(plan) && m < |plan.orders|
    ensures OrderSum(plan.orders[..m]) + plan.orders[m].quantity <= ActiveTotal(plan.origins)
  {
    hide ActiveBefore, OrderSum;
    OrderSumNext(plan.orders, m);
    OrdersGrow(plan.orders, m + 1);
  }

  lemma OrderIsOk(plan: Plan, r: PlanRequest, candidates: seq<Candidate>, m: nat)
    requires RequestOk(r, candidates) && Planned(plan, r, candidates) && m < |plan.orders|
    ensures OrderOk(plan.orders[m], plan.origins)
  {
    hide OrderSum, CapacitySum, Slices, ActiveBefore, Ranking, AllocationsOk, Greedy, DistinctCandidates, FiguresOk;
    OrderHasWork(plan, r, candidates, m);
    OrderWithinActive(plan, m);
    var from, to := OrderSum(plan.orders[..m]), OrderSum(plan.orders[..m]) + plan.orders[m].quantity;
    assert TracedOrder(plan.orders, plan.origins, m);
    SliceAmounts(plan.origins, |plan.origins|, from, to);
    TracedIsAllocationsOk(plan.origins, from, to);
  }

  lemma {:induction false} RankingIsDistinct(candidates: seq<Candidate>)
    requires DistinctCandidates(candidates)
    ensures forall i, j | 0 <= i < j < |Ranking(candidates)| :: Ranking(candidates)[i].guid != Ranking(candidates)[j].guid
  {
    if candidates == [] {
    } else {
      var n := |candidates| - 1;
      RankingIsDistinct(candidates[..n]);
      RankingIsRanked(candidates[..n]);
      if Eligible(candidates[n]) {
        var rest := Ranking(candidates[..n]);
        forall c | c in rest
          ensures c.guid != candidates[n].guid
        {
          var i :| 0 <= i < n && candidates[i] == c;
        }
        InsertKeepsDistinct(rest, candidates[n]);
      }
    }
  }

  lemma {:induction false} InsertKeepsDistinct(s: seq<Candidate>, c: Candidate)
    requires forall i, j | 0 <= i < j < |s| :: s[i].guid != s[j].guid
    requires forall d | d in s :: d.guid != c.guid
    ensures forall i, j | 0 <= i < j < |InsertRanked(s, c)| :: InsertRanked(s, c)[i].guid != InsertRanked(s, c)[j].guid
  {
    hide RankedBefore;
    if s == [] {
    } else {
      var n := |s| - 1;
      if RankedBefore(c, s[n]) {
        var front := InsertRanked(s[..n], c);
        InsertKeepsDistinct(s[..n], c);
        forall i | 0 <= i < |front|
          ensures front[i].guid != s[n].guid
        {
          assert front[i] in multiset(front);
          assert front[i] == c || front[i] in s[..n];
        }
      }
    }
  }

  /** The validator accepts every work order of every plan. */
  lemma PlansAreAccepted(plan: Plan, r: PlanRequest, candidates: seq<Candidate>, order: WorkOrder)
    requires RequestOk(r, candidates) && Planned(plan, r, candidates) && order in plan.orders
    ensures Accepted(plan, order)
  {
    hide OriginsOk, DistinctCandidates, Greedy, Traced, FiguresOk, OrderOk, NoneOverAllocated;
    forall m | 0 <= m < |plan.orders|
      ensures OrderOk(plan.orders[m], plan.origins)
    {
      OrderIsOk(plan, r, candidates, m);
    }
    OrdersHaveDistinctActors(plan, r, candidates);
    PlanOverAllocatesNothing(plan, r, candidates);
    OkOrderHasWork(plan, order);
  }

  lemma OkOrderHasWork(plan: Plan, order: WorkOrder)
    requires order in plan.orders && forall m | 0 <= m < |plan.orders| :: OrderOk(plan.orders[m], plan.origins)
    ensures order.guid != 0 && order.quantity != 0
  {
    hide AllocationsOk, AllocationSum;
  }

  lemma OrdersHaveDistinctActors(plan: Plan, r: PlanRequest, candidates: seq<Candidate>)
    requires RequestOk(r, candidates) && Planned(plan, r, candidates)
    ensures forall m, n | 0 <= m < n < |plan.orders| :: plan.orders[m].guid != plan.orders[n].guid
  {
    RankingIsDistinct(candidates);
    hide OriginsOk, DistinctCandidates, Traced, FiguresOk, Ranking, CapacitySum;
    forall m | 0 <= m < |plan.orders|
      ensures plan.orders[m].guid == Ranking(candidates)[m].guid
    {
      assert TakesItsPart(plan.orders[m], Ranking(candidates), Executable(r.batch, r.origins), m);
    }
  }

  lemma PlanOverAllocatesNothing(plan: Plan, r: PlanRequest, candidates: seq<Candidate>)
    requires RequestOk(r, candidates) && Planned(plan, r, candidates)
    ensures NoneOverAllocated(plan.orders, plan.origins)
  {
    hide DistinctCandidates, Greedy, FiguresOk, AllocatedTo, Share;
    forall j | 0 <= j < |plan.origins| && plan.origins[j].state.Active?
      ensures AllocatedTo(plan.orders, plan.origins[j].identity) <= plan.origins[j].quantity
    {
      OriginsFillInOrder(plan.orders, plan.origins, j);
    }
  }

  /** A latent origin is never served. */
  lemma LatentGetNothing(plan: Plan, r: PlanRequest, candidates: seq<Candidate>, j: nat)
    requires RequestOk(r, candidates) && Planned(plan, r, candidates)
    requires j < |plan.origins| && plan.origins[j].state.Latent?
    ensures AllocatedTo(plan.orders, plan.origins[j].identity) == 0
  {
    hide DistinctCandidates, Greedy, FiguresOk, AllocatedTo;
    OriginsFillInOrder(plan.orders, plan.origins, j);
  }

  // ----- what acceptance means, whoever made the plan

  lemma {:induction false} AllocationCounts(list: seq<Allocation>, i: nat)
    requires i < |list|
    ensures list[i].quantity <= AllocationOf(list, list[i].origin)
  {
    AllocationNext(list, i, list[i].origin);
    AllocationsGrow(list, i + 1, list[i].origin);
  }

  lemma OrderCounts(orders: seq<WorkOrder>, m: nat, identity: string)
    requires m < |orders|
    ensures AllocationOf(orders[m].allocations, identity) <= AllocatedTo(orders, identity)
  {
    AllocatedNext(orders, m, identity);
    AllocatedGrows(orders, m + 1, identity);
  }

  /** Whatever an accepted order allocates goes to an origin of the plan that is active, has not expired and
      wants at least as much. */
  lemma AcceptedServesOrigins(plan: Plan, order: WorkOrder, a: Allocation)
    requires Accepted(plan, order) && a in order.allocations
    ensures exists o | o in plan.origins ::
              o.identity == a.origin && o.state.Active? && o.expiresAt > plan.observedAt && o.identity != plan.trip &&
              0 < a.quantity <= o.quantity
  {
    hide AllocationOf, AllocatedTo, AllocationSum, FiguresOk;
    var m :| 0 <= m < |plan.orders| && plan.orders[m] == order;
    var i :| 0 <= i < |order.allocations| && order.allocations[i] == a;
    assert OrderOk(plan.orders[m], plan.origins);
    assert IsActive(plan.origins, a.origin);
    var j :| 0 <= j < |plan.origins| && plan.origins[j].identity == a.origin && plan.origins[j].state.Active?;
    AllocationCounts(order.allocations, i);
    OrderCounts(plan.orders, m, a.origin);
    assert plan.origins[j] in plan.origins && OriginOk(plan.origins[j], plan.trip, plan.observedAt);
  }

  /** What the first n origins get of a list of allocations. */
  function Received(list: seq<Allocation>, origins: seq<Origin>, n: nat): nat
    requires n <= |origins|
  {
    if n == 0 then 0 else Received(list, origins, n - 1) + AllocationOf(list, origins[n - 1].identity)
  }

  lemma {:induction false} NothingReceived(origins: seq<Origin>, n: nat)
    requires n <= |origins|
    ensures Received([], origins, n) == 0
  {
    if n > 0 {
      NothingReceived(origins, n - 1);
    }
  }

  lemma {:induction false} OneReceives(list: seq<Allocation>, a: Allocation, origins: seq<Origin>, n: nat)
    requires n <= |origins| && Distinct(origins)
    ensures Received(list + [a], origins, n) ==
            Received(list, origins, n) + if exists j :: 0 <= j < n && origins[j].identity == a.origin then a.quantity else 0
  {
    if n > 0 {
      OneReceives(list, a, origins, n - 1);
      AllocationAppended(list, a, origins[n - 1].identity);
      hide AllocationOf;
    }
  }

  lemma {:induction false} AllIsReceived(list: seq<Allocation>, origins: seq<Origin>)
    requires Distinct(origins) && forall i | 0 <= i < |list| :: IsActive(origins, list[i].origin)
    ensures Received(list, origins, |origins|) == AllocationSum(list)
  {
    if list == [] {
      NothingReceived(origins, |origins|);
    } else {
      var n := |list| - 1;
      AllIsReceived(list[..n], origins);
      OneReceives(list[..n], list[n], origins, |origins|);
      assert list[..n] + [list[n]] == list;
      assert IsActive(origins, list[n].origin);
      hide Received, Distinct;
    }
  }

  /** What the orders allocate to the first n origins together. */
  function Served(orders: seq<WorkOrder>, origins: seq<Origin>, n: nat): nat
    requires n <= |origins|
  {
    if n == 0 then 0 else Served(orders, origins, n - 1) + AllocatedTo(orders, origins[n - 1].identity)
  }

  lemma {:induction false} ServedLast(orders: seq<WorkOrder>, origins: seq<Origin>, n: nat)
    requires n <= |origins| && orders != []
    ensures var m := |orders| - 1;
            Served(orders, origins, n) == Served(orders[..m], origins, n) + Received(orders[m].allocations, origins, n)
  {
    if n > 0 {
      ServedLast(orders, origins, n - 1);
      hide AllocationOf;
    }
  }

  lemma {:induction false} NothingServed(origins: seq<Origin>, n: nat)
    requires n <= |origins|
    ensures Served([], origins, n) == 0
  {
    if n > 0 {
      NothingServed(origins, n - 1);
    }
  }

  lemma {:induction false} OrdersServe(orders: seq<WorkOrder>, origins: seq<Origin>)
    requires Distinct(origins) && forall m | 0 <= m < |orders| :: OrderOk(orders[m], origins)
    ensures Served(orders, origins, |origins|) == OrderSum(orders)
  {
    if orders == [] {
      NothingServed(origins, |origins|);
    } else {
      var m := |orders| - 1;
      assert OrderOk(orders[m], origins);
      OrdersServe(orders[..m], origins);
      AllIsReceived(orders[m].allocations, origins);
      ServedLast(orders, origins, |origins|);
      hide Served, Received, OrderOk, Distinct;
    }
  }

  /** The quantity all origins want, active or latent. */
  function WantedBefore(origins: seq<Origin>, j: nat): nat
    requires j <= |origins|
  {
    if j == 0 then 0 else WantedBefore(origins, j - 1) + origins[j - 1].quantity
  }

  lemma {:induction false} ActiveAndLatent(origins: seq<Origin>, j: nat)
    requires j <= |origins|
    ensures ActiveBefore(origins, j) + LatentBefore(origins, j) == WantedBefore(origins, j)
  {
    if j > 0 {
      ActiveAndLatent(origins, j - 1);
    }
  }

  /** In an accepted plan everything is accounted for: what the origins are allocated is what is assigned; that
      and what is unassigned, deferred and latent is what they want; no more is placed than the batch; and every
      order is somebody else's. */
  lemma AcceptedPlansBalance(plan: Plan, order: WorkOrder)
    requires Accepted(plan, order)
    ensures Served(plan.orders, plan.origins, |plan.origins|) == plan.assignedQuantity
    ensures plan.assignedQuantity + plan.unassignedQuantity + plan.deferredQuantity + plan.latentQuantity ==
            WantedBefore(plan.origins, |plan.origins|)
    ensures plan.assignedQuantity + plan.unassignedQuantity <= plan.batch
    ensures forall m, n | 0 <= m < n < |plan.orders| :: plan.orders[m].guid != plan.orders[n].guid
  {
    hide OrderOk, NoneOverAllocated, Served, OrderSum;
    OrdersServe(plan.orders, plan.origins);
    ActiveAndLatent(plan.origins, |plan.origins|);
    hide ActiveBefore, LatentBefore, WantedBefore;
  }

  /** Assigned, unassigned and deferred quantities make up what is active. */
  lemma PlansConserve(plan: Plan, r: PlanRequest, candidates: seq<Candidate>)
    requires Planned(plan, r, candidates)
    ensures plan.assignedQuantity + plan.unassignedQuantity + plan.deferredQuantity == ActiveTotal(plan.origins)
    ensures plan.assignedQuantity == Min(Executable(r.batch, r.origins), CapacitySum(Ranking(candidates)))
  {
    var ranked, n := Ranking(candidates), |plan.orders|;
    GreedyPlaced(plan.orders, ranked, Executable(r.batch, r.origins), n);
    CapacityGrows(ranked, n);
    assert plan.orders[..n] == plan.orders;
    assert n == |ranked| ==> ranked[..n] == ranked;
    hide Traced, CapacitySum, Ranking;
  }
}
