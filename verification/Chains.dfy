/** Demand chains: one record per gap with demand, with a bounded history of what happened to it. */
module Chains {
  import opened Economy
  import opened Gaps
  import opened Steps

  datatype Stage = Demand | Claimed | Commit | Deliver | Release | Blocked | Complete

  datatype ChainOutcome = Progress | Released | Failed | Blocked | Completed

  datatype ChainEvent = ChainEvent(
    sequence: nat,
    occurredAt: nat,
    actor: uint32,
    stage: Stage,
    outcome: ChainOutcome,
    kind: ClaimKind,
    assignment: Outcome,
    blocker: Blocker,
    quantity: uint32,
    remaining: uint32,
    work: string)

  function PlainEvent(now: nat, stage: Stage, outcome: ChainOutcome): ChainEvent
  {
    ChainEvent(0, now, 0, stage, outcome, Production, Committed, NoBlocker, 0, 0, "")
  }

  datatype Chain = Chain(
    id: nat,
    key: GapKey,
    createdAt: nat,
    updatedAt: nat,
    completedAt: nat,
    demand: uint32,
    supply: uint32,
    claimed: uint32,
    remaining: uint32,
    active: bool,
    consumers: seq<uint32>,
    history: seq<ChainEvent>,
    totalHistory: nat,
    truncated: bool)

  /** Numbers the event and appends it, dropping the oldest of a full history. */
  function Append(chain: Chain, event: ChainEvent): Chain
  {
    var full := |chain.history| == CHAIN_HISTORY_CAPACITY;
    var kept := if full then chain.history[1..] else chain.history;
    chain.(updatedAt := Max(chain.updatedAt, event.occurredAt),
           totalHistory := chain.totalHistory + 1,
           history := kept + [event.(sequence := chain.totalHistory + 1)],
           truncated := chain.truncated || full)
  }

  /** The history holds the last events, numbered without gaps up to the total. */
  predicate HistoryOk(chain: Chain)
  {
    && |chain.history| == Min(chain.totalHistory, CHAIN_HISTORY_CAPACITY)
    && (forall i | 0 <= i < |chain.history| :: chain.history[i].sequence == chain.totalHistory - |chain.history| + 1 + i)
    && (chain.truncated <==> chain.totalHistory > CHAIN_HISTORY_CAPACITY)
  }

  lemma AppendKeepsHistory(chain: Chain, event: ChainEvent)
    requires HistoryOk(chain)
    ensures HistoryOk(Append(chain, event))
  {
  }

  function StageOf(outcome: Outcome): Stage
  {
    match outcome
    case Committed => Commit
    case Completed => Deliver
    case InventoryReceived => Deliver
    case _ => Release
  }

  function ChainOutcomeOf(outcome: Outcome): ChainOutcome
  {
    match outcome
    case Committed => Progress
    case Completed => Progress
    case InventoryReceived => Progress
    case FailedTravel => Failed
    case FailedPurchase => Failed
    case CapabilityLost => Failed
    case _ => ChainOutcome.Released
  }

  function ClaimEvent(claim: Claim, stage: Stage, outcome: ChainOutcome, now: nat, remaining: uint32): ChainEvent
  {
    ChainEvent(0, now, claim.terms.actor, stage, outcome, claim.terms.kind, claim.lastOutcome, NoBlocker, claim.quantity,
               remaining, claim.terms.work)
  }

  /** The chains once the chain of a claim, if it is still there, has been told what became of it. */
  function Told(chains: seq<Chain>, claim: Claim, stage: Stage, outcome: ChainOutcome, now: nat, remaining: uint32): seq<Chain>
  {
    if claim.terms.chain.None? then chains
    else
      var i := Find(chains, claim.terms.chain.value);
      if i == |chains| then chains else chains[i := Append(chains[i], ClaimEvent(claim, stage, outcome, now, remaining))]
  }

  /** The chain of a claim, and no other, hears of it: when, from whom, what became of it, and what its gap still
      needs. */
  lemma ClaimIsTold(chains: seq<Chain>, claim: Claim, stage: Stage, outcome: ChainOutcome, now: nat, remaining: uint32, i: nat)
    requires i < |chains| && forall a, b | 0 <= a < b < |chains| :: chains[a].id != chains[b].id
    ensures var told := Told(chains, claim, stage, outcome, now, remaining);
            && |told| == |chains|
            && if claim.terms.chain != Some(chains[i].id) then told[i] == chains[i]
               else
                 && told[i].totalHistory == chains[i].totalHistory + 1 && told[i].history != []
                 && told[i].history[|told[i].history| - 1] ==
                      ChainEvent(chains[i].totalHistory + 1, now, claim.terms.actor, stage, outcome, claim.terms.kind, claim.lastOutcome,
                                 NoBlocker, claim.quantity, remaining, claim.terms.work)
                 && told[i] == chains[i].(updatedAt := Max(chains[i].updatedAt, now), history := told[i].history,
                                          totalHistory := told[i].totalHistory, truncated := told[i].truncated)
  {
    if claim.terms.chain.Some? {
      var at := Find(chains, claim.terms.chain.value);
      if at < |chains| && at != i {
        assert chains[at].id != chains[i].id;
      }
    }
  }

  /** The figures of a chain as the totals of its key give them. */
  function WithFigures(chain: Chain, t: GapTotals, consumers: seq<uint32>): Chain
  {
    chain.(demand := Bounded(t.demand), supply := Bounded(t.supply), claimed := Bounded(t.claimed + t.purchase),
           remaining := Bounded(UnclaimedNeed(t)), consumers := consumers)
  }

  /** A chain shows what its gap demands, has, has been promised from anywhere, and still needs, each up to 32
      bits, and who demands it. */
  predicate ShowsFigures(chain: Chain, t: GapTotals, consumers: seq<uint32>)
  {
    && chain.demand == Min(t.demand, 0xFFFF_FFFF) && chain.supply == Min(t.supply, 0xFFFF_FFFF)
    && chain.claimed == Min(t.claimed + t.purchase, 0xFFFF_FFFF)
    && chain.remaining == Min(Minus(t.demand, t.supply + t.claimed), 0xFFFF_FFFF)
    && chain.consumers == consumers
  }

  function Started(id: nat, key: GapKey, now: nat): Chain
  {
    Append(Chain(id, key, now, now, 0, 0, 0, 0, 0, true, [], [], 0, false), PlainEvent(now, Demand, Progress))
  }

  /** A chain that has just been started shows no figures yet. */
  lemma StartedShowsNothing(id: nat, key: GapKey, now: nat, t: GapTotals, consumers: seq<uint32>)
    requires t.demand > 0
    ensures !ShowsFigures(Started(id, key, now), t, consumers)
  {
  }

  /** A chain brought up to date with its gap; a lone first event shows the same figures. */
  function Synced(chain: Chain, t: GapTotals, consumers: seq<uint32>, now: nat): Chain
  {
    var figures := WithFigures(chain, t, consumers);
    var touched := if figures == chain then chain else figures.(updatedAt := now);
    if touched.totalHistory == 1 && touched.history != [] && touched.history[|touched.history| - 1].stage == Demand
    then touched.(history := touched.history[|touched.history| - 1 :=
      touched.history[|touched.history| - 1].(quantity := touched.demand, remaining := touched.remaining)])
    else touched
  }

  /** What a sync leaves of a chain: who it is and what has happened to it, except that a first report of
      demand is kept current; and it was last updated when its figures last changed. */
  predicate SameStory(chain: Chain, synced: Chain, now: nat)
  {
    && synced.id == chain.id && synced.key == chain.key && synced.active == chain.active
    && synced.createdAt == chain.createdAt && synced.completedAt == chain.completedAt
    && synced.totalHistory == chain.totalHistory && synced.truncated == chain.truncated && |synced.history| == |chain.history|
    && (forall i | 0 <= i < |chain.history| ::
          synced.history[i] == chain.history[i] ||
          (chain.totalHistory == 1 && chain.history[i].stage.Demand? &&
           synced.history[i] == chain.history[i].(quantity := synced.demand, remaining := synced.remaining)))
    && synced.updatedAt == if synced.demand == chain.demand && synced.supply == chain.supply && synced.claimed == chain.claimed &&
                              synced.remaining == chain.remaining && synced.consumers == chain.consumers
                           then chain.updatedAt else now
  }

  lemma SyncedOk(chain: Chain, t: GapTotals, consumers: seq<uint32>, now: nat)
    requires HistoryOk(chain)
    ensures var synced := Synced(chain, t, consumers, now);
            HistoryOk(synced) && ShowsFigures(synced, t, consumers) && SameStory(chain, synced, now)
  {
  }

  /** A chain whose gap has no demand left. */
  function Closed(chain: Chain, now: nat): Chain
  {
    var outcome := if chain.remaining == 0 then ChainOutcome.Completed else ChainOutcome.Released;
    Append(chain.(active := false, updatedAt := now, completedAt := now, remaining := 0),
           PlainEvent(now, Complete, outcome))
  }

  // ----- the registry

  /** The chains, the index of the active ones by key, and the next chain id. */
  datatype Registry = Registry(chains: seq<Chain>, index: map<GapKey, nat>, nextId: nat)

  /** At most 256 chains with unique ids, and an index that is a bijection between keys and the
      active chains of those keys. */
  predicate RegistryOk(r: Registry)
  {
    && |r.chains| <= CHAIN_CAPACITY
    && (forall i | 0 <= i < |r.chains| :: HistoryOk(r.chains[i]) && r.chains[i].id < r.nextId)
    && (forall i, j | 0 <= i < j < |r.chains| :: r.chains[i].id != r.chains[j].id)
    && (forall i | 0 <= i < |r.chains| && r.chains[i].active ::
          r.chains[i].key in r.index && r.index[r.chains[i].key] == r.chains[i].id)
    && (forall k | k in r.index :: ActiveFor(r.chains, k, r.index[k]))
  }

  predicate ActiveFor(chains: seq<Chain>, k: GapKey, id: nat)
  {
    exists i :: 0 <= i < |chains| && chains[i].id == id && chains[i].active && chains[i].key == k
  }

  function Find(chains: seq<Chain>, id: nat): (i: nat)
    ensures i <= |chains|
    ensures i < |chains| ==> chains[i].id == id
    ensures i == |chains| ==> forall j | 0 <= j < |chains| :: chains[j].id != id
  {
    if chains == [] then 0
    else
      var n := |chains| - 1;
      var i := Find(chains[..n], id);
      if i < n then i else if chains[n].id == id then n else n + 1
  }

  lemma FindActive(r: Registry, k: GapKey)
    requires RegistryOk(r) && k in r.index
    ensures var i := Find(r.chains, r.index[k]); i < |r.chains| && r.chains[i].active && r.chains[i].key == k
  {
    assert ActiveFor(r.chains, k, r.index[k]);
    var j :| 0 <= j < |r.chains| && r.chains[j].id == r.index[k] && r.chains[j].active && r.chains[j].key == k;
    var i := Find(r.chains, r.index[k]);
    assert i < |r.chains| by { assert r.chains[j].id == r.index[k]; }
    assert i == j;
  }

  /** Changing a chain's figures or history leaves the registry sound. */
  lemma ReplaceKeepsRegistry(r: Registry, i: nat, chain: Chain)
    requires RegistryOk(r) && i < |r.chains| && HistoryOk(chain)
    requires chain.id == r.chains[i].id && chain.key == r.chains[i].key && chain.active == r.chains[i].active
    ensures RegistryOk(r.(chains := r.chains[i := chain]))
  {
    hide HistoryOk;
    var after := r.chains[i := chain];
    forall k | k in r.index
      ensures ActiveFor(after, k, r.index[k])
    {
      assert ActiveFor(r.chains, k, r.index[k]);
      var j :| 0 <= j < |r.chains| && r.chains[j].id == r.index[k] && r.chains[j].active && r.chains[j].key == k;
      assert after[j].id == r.index[k] && after[j].active && after[j].key == k;
    }
  }

  /** A registry with one more chain, entered in the index. */
  function Entered(r: Registry, chain: Chain): Registry
  {
    Registry(r.chains + [chain], r.index[chain.key := chain.id], r.nextId + 1)
  }

  lemma AddKeepsRegistry(r: Registry, chain: Chain)
    requires RegistryOk(r) && |r.chains| < CHAIN_CAPACITY && chain.key !in r.index
    requires HistoryOk(chain) && chain.active && chain.id == r.nextId
    ensures RegistryOk(Entered(r, chain))
  {
    hide HistoryOk;
    var after, index := r.chains + [chain], r.index[chain.key := chain.id];
    forall k | k in index
      ensures ActiveFor(after, k, index[k])
    {
      if k == chain.key {
        assert after[|r.chains|] == chain;
      } else {
        assert ActiveFor(r.chains, k, r.index[k]);
        var j :| 0 <= j < |r.chains| && r.chains[j].id == r.index[k] && r.chains[j].active && r.chains[j].key == k;
        assert after[j] == r.chains[j];
      }
    }
  }

  /** Dropping a chain that is no longer active. */
  lemma EvictKeepsRegistry(r: Registry, i: nat)
    requires RegistryOk(r) && i < |r.chains| && !r.chains[i].active
    ensures RegistryOk(r.(chains := Without(r.chains, i)))
  {
    hide HistoryOk;
    var after := Without(r.chains, i);
    forall j | 0 <= j < |after|
      ensures after[j] == r.chains[if j < i then j else j + 1]
    {
    }
    forall a, b | 0 <= a < b < |after|
      ensures after[a].id != after[b].id
    {
      assert r.chains[if a < i then a else a + 1].id != r.chains[if b < i then b else b + 1].id;
    }
    forall k | k in r.index
      ensures ActiveFor(after, k, r.index[k])
    {
      EvictKeepsActive(r.chains, i, k, r.index[k]);
    }
  }

  lemma EvictKeepsActive(chains: seq<Chain>, i: nat, k: GapKey, id: nat)
    requires i < |chains| && !chains[i].active && ActiveFor(chains, k, id)
    ensures ActiveFor(Without(chains, i), k, id)
  {
    var after := Without(chains, i);
    var j :| 0 <= j < |chains| && chains[j].id == id && chains[j].active && chains[j].key == k;
    assert after[if j < i then j else j - 1] == chains[j];
  }

  /** Closing an active chain and taking its key out of the index. */
  lemma CloseKeepsRegistry(r: Registry, k: GapKey, i: nat, chain: Chain)
    requires RegistryOk(r) && k in r.index && i < |r.chains| && r.chains[i].id == r.index[k]
    requires HistoryOk(chain) && chain.id == r.chains[i].id && !chain.active
    ensures RegistryOk(Registry(r.chains[i := chain], r.index - {k}, r.nextId))
  {
    hide HistoryOk;
    var after, index := r.chains[i := chain], r.index - {k};
    assert ActiveFor(r.chains, k, r.index[k]);
    assert r.chains[i].active && r.chains[i].key == k;
    forall other | other in index
      ensures ActiveFor(after, other, index[other])
    {
      assert ActiveFor(r.chains, other, r.index[other]);
      var j :| 0 <= j < |r.chains| && r.chains[j].id == r.index[other] && r.chains[j].active && r.chains[j].key == other;
      assert after[j] == r.chains[j];
    }
    forall j | 0 <= j < |after| && after[j].active
      ensures after[j].key in index && index[after[j].key] == after[j].id
    {
      assert j != i && after[j] == r.chains[j];
    }
  }

  lemma OneChainPerKey(r: Registry, key: GapKey, i: nat)
    requires RegistryOk(r) && i < |r.chains| && r.chains[i].active && r.chains[i].key == key
    ensures forall j | 0 <= j < |r.chains| && j != i && r.chains[j].active :: r.chains[j].key != key
  {
  }

  lemma ActiveIsIndexed(r: Registry)
    requires RegistryOk(r)
    ensures forall c | c in r.chains && c.active :: c.key in r.index
  {
  }

  /** The first chain that may give way to a new one. */
  function FirstInactive(chains: seq<Chain>): (i: nat)
    ensures i <= |chains|
    ensures forall j | 0 <= j < i :: chains[j].active
    ensures i < |chains| ==> !chains[i].active
    ensures i == |chains| ==> forall j | 0 <= j < |chains| :: chains[j].active
  {
    if chains == [] then 0
    else
      var n := |chains| - 1;
      var i := FirstInactive(chains[..n]);
      if i < n then i else if !chains[n].active then n else n + 1
  }

  lemma StartedOk(id: nat, key: GapKey, now: nat)
    ensures var chain := Started(id, key, now);
            && HistoryOk(chain) && chain.active && chain.id == id && chain.key == key
            && chain.createdAt == chain.updatedAt == now && chain.totalHistory == 1
            && |chain.history| == 1 && chain.history[0].stage.Demand? && chain.history[0].occurredAt == now
  {
  }

  /** What is left of a chain when the demand for it ends: it is over as of now, needs nothing, and its last event
      says whether its gap had been met. */
  predicate Ended(chain: Chain, closed: Chain, now: nat)
  {
    && closed.id == chain.id && closed.key == chain.key && !closed.active && closed.remaining == 0
    && closed.completedAt == closed.updatedAt == now && closed.createdAt == chain.createdAt && closed.history != []
    && var last := closed.history[|closed.history| - 1];
       && last.stage.Complete? && last.occurredAt == now
       && last.outcome == if chain.remaining == 0 then ChainOutcome.Completed else ChainOutcome.Released
  }

  lemma ClosedOk(chain: Chain, now: nat)
    requires HistoryOk(chain)
    ensures var closed := Closed(chain, now); HistoryOk(closed) && Ended(chain, closed, now) && closed.totalHistory == chain.totalHistory + 1
  {
    AppendKeepsHistory(chain.(active := false, updatedAt := now, completedAt := now, remaining := 0),
                       PlainEvent(now, Complete, if chain.remaining == 0 then ChainOutcome.Completed else ChainOutcome.Released));
  }
}
