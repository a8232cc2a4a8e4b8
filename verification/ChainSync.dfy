/**
 How the chain registry follows the gaps. A sync gives every demanded key a chain while there is
 room, brings those chains up to date, and closes the chains of keys without demand.
 */
module ChainSync {
  import opened Economy
  import opened Order
  import opened Gaps
  import opened Trim
  import opened Steps
  import opened Tally
  import opened Chains

  /** No room for another chain, and none that may give way to it. */
  predicate Full(chains: seq<Chain>)
  {
    |chains| >= CHAIN_CAPACITY && forall c | c in chains :: c.active
  }

  /** Room for one more chain, if need be at the expense of the oldest that is no longer active. */
  function Roomy(chains: seq<Chain>): seq<Chain>
  {
    var i := FirstInactive(chains);
    if |chains| < CHAIN_CAPACITY || i == |chains| then chains else Without(chains, i)
  }

  /** The chain a key has, or would be given now. */
  function Offer(r: Registry, key: GapKey, hasDemand: bool): Option<nat>
  {
    if key in r.index then Some(r.index[key]) else if hasDemand && !Full(r.chains) then Some(r.nextId) else None
  }

  predicate StartsChain(r: Registry, key: GapKey, hasDemand: bool)
  {
    key !in r.index && hasDemand && !Full(r.chains)
  }

  function Ensured(r: Registry, key: GapKey, now: nat, hasDemand: bool): Registry
  {
    if StartsChain(r, key, hasDemand) then Entered(r.(chains := Roomy(r.chains)), Started(r.nextId, key, now)) else r
  }

  /** The registry with the chain of a key, if it has one, brought up to date. */
  function Shown(r: Registry, key: GapKey, t: GapTotals, consumers: seq<uint32>, now: nat): Registry
  {
    if key !in r.index then r
    else
      var i := Find(r.chains, r.index[key]);
      if i == |r.chains| then r else r.(chains := r.chains[i := Synced(r.chains[i], t, consumers, now)])
  }

  function Updated(r: Registry, key: GapKey, t: GapTotals, consumers: seq<uint32>, now: nat): Registry
  {
    Shown(Ensured(r, key, now, true), key, t, consumers, now)
  }

  predicate Demanded(gaps: map<GapKey, GapTotals>, k: GapKey)
  {
    k in gaps && gaps[k].demand > 0
  }

  function UpdatedAll(r: Registry, keys: seq<GapKey>, gaps: map<GapKey, GapTotals>, consumers: map<GapKey, seq<uint32>>,
                      now: nat): Registry
  {
    if keys == [] then r
    else
      var k := keys[|keys| - 1];
      var before := UpdatedAll(r, keys[..|keys| - 1], gaps, consumers, now);
      if Demanded(gaps, k) then Updated(before, k, gaps[k], ConsumersAt(consumers, k), now) else before
  }

  function ClosedAt(r: Registry, key: GapKey, now: nat): Registry
  {
    if key !in r.index then r
    else
      var i := Find(r.chains, r.index[key]);
      if i == |r.chains| then r else Registry(r.chains[i := Closed(r.chains[i], now)], r.index - {key}, r.nextId)
  }

  function ClosedAll(r: Registry, keys: seq<GapKey>, now: nat): Registry
  {
    if keys == [] then r else ClosedAt(ClosedAll(r, keys[..|keys| - 1], now), keys[|keys| - 1], now)
  }

  function Settled(r: Registry, gaps: map<GapKey, GapTotals>): set<GapKey>
  {
    set k | k in r.index && !Demanded(gaps, k)
  }

  ghost function SyncedRegistry(r: Registry, gaps: map<GapKey, GapTotals>, consumers: map<GapKey, seq<uint32>>, now: nat): Registry
  {
    var updated := UpdatedAll(r, AscendingKeys(gaps.Keys), gaps, consumers, now);
    ClosedAll(updated, AscendingKeys(Settled(updated, gaps)), now)
  }

  lemma UpdatedAllNext(r: Registry, keys: seq<GapKey>, k: GapKey, gaps: map<GapKey, GapTotals>,
                       consumers: map<GapKey, seq<uint32>>, now: nat)
    ensures var before := UpdatedAll(r, keys, gaps, consumers, now);
            UpdatedAll(r, keys + [k], gaps, consumers, now) ==
            if Demanded(gaps, k) then Updated(before, k, gaps[k], ConsumersAt(consumers, k), now) else before
  {
    assert (keys + [k])[..|keys|] == keys;
  }

  lemma ClosedAllNext(r: Registry, keys: seq<GapKey>, k: GapKey, now: nat)
    ensures ClosedAll(r, keys + [k], now) == ClosedAt(ClosedAll(r, keys, now), k, now)
  {
    assert (keys + [k])[..|keys|] == keys;
  }

  // ----- one key

  lemma RoomyIsRoom(r: Registry)
    requires RegistryOk(r) && !Full(r.chains)
    ensures RegistryOk(r.(chains := Roomy(r.chains))) && |Roomy(r.chains)| < CHAIN_CAPACITY
    ensures forall c | c in r.chains && c.active :: c in Roomy(r.chains)
    ensures forall c | c in Roomy(r.chains) :: c in r.chains
    ensures |r.chains| <= |Roomy(r.chains)| + 1
  {
    hide HistoryOk;
    var i := FirstInactive(r.chains);
    if |r.chains| >= CHAIN_CAPACITY {
      assert i < |r.chains|;
      EvictKeepsRegistry(r, i);
      hide RegistryOk;
      EvictSparesActive(r.chains, i);
    }
  }

  lemma EvictSparesActive(chains: seq<Chain>, i: nat)
    requires i < |chains| && !chains[i].active
    ensures forall c | c in chains && c.active :: c in Without(chains, i)
    ensures forall c | c in Without(chains, i) :: c in chains
  {
    forall c | c in chains && c.active
      ensures c in Without(chains, i)
    {
      var j :| 0 <= j < |chains| && chains[j] == c;
      assert Without(chains, i)[if j < i then j else j - 1] == c;
    }
  }

  lemma EnsuredEffect(r: Registry, key: GapKey, now: nat, hasDemand: bool)
    requires RegistryOk(r)
    ensures var u := Ensured(r, key, now, hasDemand);
            && RegistryOk(u) && |r.chains| <= |u.chains|
            && (forall c | c in r.chains && c.active :: c in u.chains)
            && (forall c | c in u.chains :: c in r.chains || (c == Started(r.nextId, key, now) && key !in r.index))
            && (hasDemand ==> key in u.index || Full(u.chains))
  {
    if StartsChain(r, key, hasDemand) {
      hide Started;
      RoomyIsRoom(r);
      StartedOk(r.nextId, key, now);
      AddKeepsRegistry(r.(chains := Roomy(r.chains)), Started(r.nextId, key, now));
      hide RegistryOk, Roomy, HistoryOk, Full;
    }
  }

  lemma EnsuredIsOk(r: Registry, key: GapKey, now: nat, hasDemand: bool)
    requires RegistryOk(r)
    ensures RegistryOk(Ensured(r, key, now, hasDemand))
  {
    EnsuredEffect(r, key, now, hasDemand);
    hide Ensured, RegistryOk;
  }

  lemma NothingUpdated(r: Registry, gaps: map<GapKey, GapTotals>, consumers: map<GapKey, seq<uint32>>, now: nat)
    ensures UpdatedAll(r, [], gaps, consumers, now) == r
  {
  }

  lemma ShownEffect(r: Registry, key: GapKey, t: GapTotals, consumers: seq<uint32>, now: nat)
    requires RegistryOk(r)
    ensures var u := Shown(r, key, t, consumers, now);
            && RegistryOk(u) && |u.chains| == |r.chains| && u.index == r.index && u.nextId == r.nextId
            && (forall c | c in r.chains && c.active :: (if c.key == key then Synced(c, t, consumers, now) else c) in u.chains)
            && (forall c | c in u.chains && c.active :: if c.key == key then ShowsFigures(c, t, consumers) else c in r.chains)
  {
    hide Synced, ShowsFigures, HistoryOk;
    ActiveIsIndexed(r);
    if key in r.index {
      FindActive(r, key);
      var i := Find(r.chains, r.index[key]);
      var synced := Synced(r.chains[i], t, consumers, now);
      SyncedOk(r.chains[i], t, consumers, now);
      ReplaceKeepsRegistry(r, i, synced);
      OneChainPerKey(r, key, i);
      hide RegistryOk;
      var after := r.chains[i := synced];
      forall c | c in r.chains && c.active
        ensures (if c.key == key then Synced(c, t, consumers, now) else c) in after
      {
        var j :| 0 <= j < |r.chains| && r.chains[j] == c;
        assert after[j] == if j == i then synced else c;
      }
    }
  }

  lemma ShownIsOk(r: Registry, key: GapKey, t: GapTotals, consumers: seq<uint32>, now: nat)
    requires RegistryOk(r)
    ensures RegistryOk(Shown(r, key, t, consumers, now))
  {
    ShownEffect(r, key, t, consumers, now);
    hide Shown, RegistryOk;
  }

  lemma UpdatedEffect(r: Registry, key: GapKey, t: GapTotals, consumers: seq<uint32>, now: nat)
    requires RegistryOk(r)
    ensures var u := Updated(r, key, t, consumers, now);
            && RegistryOk(u) && |r.chains| <= |u.chains| && (key in u.index || Full(u.chains))
            && u.index == (if StartsChain(r, key, true) then r.index[key := r.nextId] else r.index)
            && (forall c | c in r.chains && c.active :: (if c.key == key then Synced(c, t, consumers, now) else c) in u.chains)
            && (forall c | c in u.chains && c.active :: if c.key == key then ShowsFigures(c, t, consumers) else c in r.chains)
  {
    hide Synced, ShowsFigures, RegistryOk, Started, Shown, Roomy;
    var e := Ensured(r, key, now, true);
    EnsuredEffect(r, key, now, true);
    ShownEffect(e, key, t, consumers, now);
    StartedKey(r.nextId, key, now);
    if key !in e.index {
      NothingShown(e, key, t, consumers, now);
    }
  }

  lemma StartedKey(id: nat, key: GapKey, now: nat)
    ensures Started(id, key, now).key == key && Started(id, key, now).id == id
  {
  }

  lemma NothingShown(r: Registry, key: GapKey, t: GapTotals, consumers: seq<uint32>, now: nat)
    requires key !in r.index
    ensures Shown(r, key, t, consumers, now) == r
  {
  }

  // ----- all keys

  /** What the update of some keys does: known chains stay and are brought up to date, new ones are
      given to demanded keys, and a demanded key goes without only at full capacity. */
  predicate BroughtUpToDate(r: Registry, u: Registry, keys: seq<GapKey>, gaps: map<GapKey, GapTotals>,
                            consumers: map<GapKey, seq<uint32>>, now: nat)
  {
    && |r.chains| <= |u.chains|
    && (forall k | k in r.index :: k in u.index && u.index[k] == r.index[k])
    && (forall k | k in u.index && k !in r.index :: k in keys && Demanded(gaps, k) && !Full(r.chains))
    && (forall k | k in keys && Demanded(gaps, k) :: k in u.index || |u.chains| == CHAIN_CAPACITY)
    && (forall c | c in r.chains && c.active :: Followed(c, c.key in keys, gaps, consumers, now) in u.chains)
    && (forall c | c in u.chains && c.active ::
          if c.key in keys && Demanded(gaps, c.key) then ShowsFigures(c, gaps[c.key], ConsumersAt(consumers, c.key)) else c in r.chains)
  }

  function Followed(c: Chain, visited: bool, gaps: map<GapKey, GapTotals>, consumers: map<GapKey, seq<uint32>>, now: nat): Chain
  {
    if visited && Demanded(gaps, c.key) then Synced(c, gaps[c.key], ConsumersAt(consumers, c.key), now) else c
  }

  lemma FullStays(r: Registry, keys: seq<GapKey>, gaps: map<GapKey, GapTotals>, consumers: map<GapKey, seq<uint32>>, now: nat)
    requires RegistryOk(r) && Full(r.chains)
    ensures var u := UpdatedAll(r, keys, gaps, consumers, now); RegistryOk(u) && Full(u.chains) && u.index == r.index
  {
    if keys != [] {
      var n := |keys| - 1;
      var before := UpdatedAll(r, keys[..n], gaps, consumers, now);
      FullStays(r, keys[..n], gaps, consumers, now);
      if Demanded(gaps, keys[n]) {
        UpdatedKeepsFull(before, keys[n], gaps[keys[n]], ConsumersAt(consumers, keys[n]), now);
      }
    }
  }

  lemma UpdatedKeepsFull(r: Registry, key: GapKey, t: GapTotals, consumers: seq<uint32>, now: nat)
    requires RegistryOk(r) && Full(r.chains)
    ensures var u := Updated(r, key, t, consumers, now); RegistryOk(u) && Full(u.chains) && u.index == r.index
  {
    hide Synced, Started;
    UpdatedEffect(r, key, t, consumers, now);
    if key in r.index {
      FindActive(r, key);
      SyncedKeepsActive(r.chains[Find(r.chains, r.index[key])], t, consumers, now);
    }
    hide RegistryOk;
  }

  lemma SyncedKeepsActive(chain: Chain, t: GapTotals, consumers: seq<uint32>, now: nat)
    ensures var synced := Synced(chain, t, consumers, now);
            synced.active == chain.active && synced.key == chain.key && synced.id == chain.id
  {
  }

  lemma {:induction false} UpdatedAllEffect(r: Registry, keys: seq<GapKey>, gaps: map<GapKey, GapTotals>,
                                            consumers: map<GapKey, seq<uint32>>, now: nat)
    requires RegistryOk(r) && Distinct(keys)
    ensures var u := UpdatedAll(r, keys, gaps, consumers, now);
            RegistryOk(u) && BroughtUpToDate(r, u, keys, gaps, consumers, now)
  {
    if keys == [] {
    } else {
      var n := |keys| - 1;
      var k := keys[n];
      assert keys == keys[..n] + [k];
      assert k !in keys[..n];
      UpdatedAllEffect(r, keys[..n], gaps, consumers, now);
      var before := UpdatedAll(r, keys[..n], gaps, consumers, now);
      if Full(r.chains) {
        FullStays(r, keys[..n], gaps, consumers, now);
      }
      hide BroughtUpToDate, UpdatedAll, RegistryOk;
      OneMoreKey(r, before, keys[..n], k, gaps, consumers, now);
    }
  }

  lemma OneMoreKey(r: Registry, before: Registry, keys: seq<GapKey>, k: GapKey, gaps: map<GapKey, GapTotals>,
                   consumers: map<GapKey, seq<uint32>>, now: nat)
    requires RegistryOk(before) && k !in keys && BroughtUpToDate(r, before, keys, gaps, consumers, now)
    requires Full(r.chains) ==> Full(before.chains)
    ensures var u := if Demanded(gaps, k) then Updated(before, k, gaps[k], ConsumersAt(consumers, k), now) else before;
            RegistryOk(u) && BroughtUpToDate(r, u, keys + [k], gaps, consumers, now)
  {
    hide Updated, Synced, ShowsFigures, ConsumersAt, RegistryOk;
    if Demanded(gaps, k) {
      UpdatedEffect(before, k, gaps[k], ConsumersAt(consumers, k), now);
      var u := Updated(before, k, gaps[k], ConsumersAt(consumers, k), now);
      RegistryBound(u);
      RegistryBound(before);
      forall c | c in r.chains && c.active
        ensures Followed(c, c.key in keys + [k], gaps, consumers, now) in u.chains
      {
        var d := Followed(c, c.key in keys, gaps, consumers, now);
        FollowedKeepsKey(c, c.key in keys, gaps, consumers, now);
        assert d in before.chains;
      }
    }
  }

  lemma RegistryBound(r: Registry)
    requires RegistryOk(r)
    ensures |r.chains| <= CHAIN_CAPACITY
  {
  }

  lemma FollowedKeepsKey(c: Chain, visited: bool, gaps: map<GapKey, GapTotals>, consumers: map<GapKey, seq<uint32>>, now: nat)
    ensures var d := Followed(c, visited, gaps, consumers, now); d.key == c.key && d.active == c.active && d.id == c.id
  {
    hide Synced;
    if visited && Demanded(gaps, c.key) {
      SyncedKeepsActive(c, gaps[c.key], ConsumersAt(consumers, c.key), now);
    }
  }

  // ----- closing

  lemma ClosedAtEffect(r: Registry, key: GapKey, now: nat)
    requires RegistryOk(r) && key in r.index
    ensures var u := ClosedAt(r, key, now);
            && RegistryOk(u) && |u.chains| == |r.chains| && u.index == r.index - {key}
            && (forall c | c in r.chains :: (if c.active && c.key == key then Closed(c, now) else c) in u.chains)
            && (forall c | c in u.chains && c.active :: c in r.chains && c.key != key)
  {
    hide Closed, HistoryOk;
    FindActive(r, key);
    var i := Find(r.chains, r.index[key]);
    ClosedOk(r.chains[i], now);
    CloseKeepsRegistry(r, key, i, Closed(r.chains[i], now));
    OneChainPerKey(r, key, i);
    hide RegistryOk;
    var after := r.chains[i := Closed(r.chains[i], now)];
    forall c | c in r.chains
      ensures (if c.active && c.key == key then Closed(c, now) else c) in after
    {
      var j :| 0 <= j < |r.chains| && r.chains[j] == c;
      assert after[j] == if j == i then Closed(r.chains[i], now) else c;
    }
  }

  lemma ClosedIsInactive(c: Chain, now: nat)
    ensures Ended(c, Closed(c, now), now)
  {
  }

  /** What closing some keys does to the chains and their index. */
  ghost predicate ClosedOff(r: Registry, u: Registry, keys: seq<GapKey>, now: nat)
  {
    && |u.chains| == |r.chains|
    && (forall k :: k in u.index <==> k in r.index && k !in keys)
    && (forall k | k in u.index :: u.index[k] == r.index[k])
    && (forall c | c in r.chains :: (if c.active && c.key in keys then Closed(c, now) else c) in u.chains)
    && (forall c | c in u.chains && c.active :: c in r.chains && c.key !in keys)
  }

  lemma {:induction false} ClosedAllEffect(r: Registry, keys: seq<GapKey>, now: nat)
    requires RegistryOk(r) && Distinct(keys) && forall k | k in keys :: k in r.index
    ensures RegistryOk(ClosedAll(r, keys, now)) && ClosedOff(r, ClosedAll(r, keys, now), keys, now)
  {
    if keys == [] {
    } else {
      hide RegistryOk, Closed, ClosedAt;
      var n := |keys| - 1;
      assert keys == keys[..n] + [keys[n]];
      assert keys[n] !in keys[..n];
      ClosedAllEffect(r, keys[..n], now);
      OneMoreClosed(r, ClosedAll(r, keys[..n], now), keys[..n], keys[n], now);
    }
  }

  lemma OneMoreClosed(r: Registry, before: Registry, keys: seq<GapKey>, k: GapKey, now: nat)
    requires RegistryOk(before) && k !in keys && k in r.index && ClosedOff(r, before, keys, now)
    ensures RegistryOk(ClosedAt(before, k, now)) && ClosedOff(r, ClosedAt(before, k, now), keys + [k], now)
  {
    hide RegistryOk, Closed, ClosedAt;
    ClosedAtEffect(before, k, now);
    var u := ClosedAt(before, k, now);
    forall c | c in r.chains
      ensures (if c.active && c.key in keys + [k] then Closed(c, now) else c) in u.chains
    {
      ClosedIsInactive(c, now);
      assert (if c.active && c.key in keys then Closed(c, now) else c) in before.chains;
    }
  }

  // ----- the sync

  /** What a sync makes of the chains. Only demanded keys have a chain afterwards, and every one has,
      unless all 256 places are taken; a key that keeps its demand keeps its chain; every active chain
      shows the figures of its gap. What was active is brought up to date or closed, history and all. */
  predicate InStepWithGaps(r: Registry, u: Registry, gaps: map<GapKey, GapTotals>, consumers: map<GapKey, seq<uint32>>, now: nat)
  {
    && RegistryOk(u)
    && (forall k | k in u.index :: Demanded(gaps, k) && (k !in r.index ==> !Full(r.chains)))
    && (forall k | k in gaps && Demanded(gaps, k) :: k in u.index || |u.chains| == CHAIN_CAPACITY)
    && (forall k | k in r.index && Demanded(gaps, k) :: k in u.index && u.index[k] == r.index[k])
    && (forall c | c in r.chains && c.active :: SyncOf(c, gaps, consumers, now) in u.chains)
    && (forall c | c in u.chains && c.active ::
          Demanded(gaps, c.key) && ShowsFigures(c, gaps[c.key], ConsumersAt(consumers, c.key)))
  }

  /** What a sync makes of one active chain. */
  function SyncOf(c: Chain, gaps: map<GapKey, GapTotals>, consumers: map<GapKey, seq<uint32>>, now: nat): Chain
  {
    if Demanded(gaps, c.key) then Synced(c, gaps[c.key], ConsumersAt(consumers, c.key), now) else Closed(c, now)
  }

  lemma SyncFollowsGaps(r: Registry, gaps: map<GapKey, GapTotals>, consumers: map<GapKey, seq<uint32>>, now: nat)
    requires RegistryOk(r)
    ensures InStepWithGaps(r, SyncedRegistry(r, gaps, consumers, now), gaps, consumers, now)
  {
    hide RegistryOk, BroughtUpToDate, ClosedOff, UpdatedAll, ClosedAll, AscendingKeys, InStepWithGaps;
    var keys := AscendingKeys(gaps.Keys);
    AscendingKeysDistinct(gaps.Keys);
    UpdatedAllEffect(r, keys, gaps, consumers, now);
    var updated := UpdatedAll(r, keys, gaps, consumers, now);
    var settled := AscendingKeys(Settled(updated, gaps));
    AscendingKeysDistinct(Settled(updated, gaps));
    ClosedAllEffect(updated, settled, now);
    BothEffects(r, updated, ClosedAll(updated, settled, now), keys, settled, gaps, consumers, now);
  }

  lemma BothEffects(r: Registry, updated: Registry, u: Registry, keys: seq<GapKey>, settled: seq<GapKey>,
                    gaps: map<GapKey, GapTotals>, consumers: map<GapKey, seq<uint32>>, now: nat)
    requires RegistryOk(updated) && RegistryOk(u)
    requires BroughtUpToDate(r, updated, keys, gaps, consumers, now) && ClosedOff(updated, u, settled, now)
    requires forall k :: k in keys <==> k in gaps
    requires forall k :: k in settled <==> k in updated.index && !Demanded(gaps, k)
    ensures InStepWithGaps(r, u, gaps, consumers, now)
  {
    ActiveIsIndexed(updated);
    hide RegistryOk, Synced, Closed, ShowsFigures, ConsumersAt;
    forall c | c in r.chains && c.active
      ensures SyncOf(c, gaps, consumers, now) in u.chains
    {
      FollowedKeepsKey(c, c.key in keys, gaps, consumers, now);
      assert Followed(c, c.key in keys, gaps, consumers, now) in updated.chains;
    }
  }

  // ----- events leave everything but the history

  predicate SameButHistory(c: Chain, d: Chain)
  {
    d == c.(updatedAt := d.updatedAt, history := d.history, totalHistory := d.totalHistory, truncated := d.truncated)
  }

  /** The same chains, perhaps with more to their histories. */
  predicate Alike(a: seq<Chain>, b: seq<Chain>)
  {
    |a| == |b| && forall i | 0 <= i < |a| :: SameButHistory(a[i], b[i])
  }

  lemma AlikeTransitive(a: seq<Chain>, b: seq<Chain>, c: seq<Chain>)
    requires Alike(a, b) && Alike(b, c)
    ensures Alike(a, c)
  {
    forall i | 0 <= i < |a|
      ensures SameButHistory(a[i], c[i])
    {
      assert SameButHistory(a[i], b[i]) && SameButHistory(b[i], c[i]);
    }
  }

  lemma ToldIsAlike(chains: seq<Chain>, claim: Claim, stage: Stage, outcome: ChainOutcome, now: nat, remaining: uint32)
    ensures Alike(chains, Told(chains, claim, stage, outcome, now, remaining))
  {
    hide Find;
  }

  // ----- what a caller can rely on

  /** Every active chain shows the figures of a gap that has demand. */
  ghost predicate ShowGaps(chains: seq<Chain>, b: Book)
  {
    forall c | c in chains && c.active ::
      ShowsFigures(c, TotalsAt(b, c.key), ConsumersOf(b, c.key)) && TotalsAt(b, c.key).demand > 0
  }

  /** At every one of the keys there is demand that is neither supplied nor promised. */
  ghost predicate NeedStands(keys: set<GapKey>, b: Book)
  {
    forall k | k in keys :: UnclaimedNeed(TotalsAt(b, k)) > 0
  }

  /** The registry after a sync with the book: the chains of before, perhaps told of some claims since,
      brought in step with the gaps. */
  ghost predicate Follows(r: Registry, u: Registry, b: Book, now: nat)
  {
    exists told :: Alike(r.chains, told) && RegistryOk(r.(chains := told)) &&
                   u == SyncedRegistry(r.(chains := told), FreshGaps(b), FreshConsumers(b), now)
  }

  lemma SyncFollows(r: Registry, told: seq<Chain>, b: Book, now: nat)
    requires Alike(r.chains, told) && RegistryOk(r.(chains := told))
    ensures Follows(r, SyncedRegistry(r.(chains := told), FreshGaps(b), FreshConsumers(b), now), b, now)
  {
  }

  lemma SyncShowsGaps(r: Registry, b: Book, now: nat)
    requires RegistryOk(r)
    ensures var u := SyncedRegistry(r, FreshGaps(b), FreshConsumers(b), now); RegistryOk(u) && ShowGaps(u.chains, b)
  {
    SyncFollowsGaps(r, FreshGaps(b), FreshConsumers(b), now);
    hide SyncedRegistry, FreshGaps, FreshConsumers, ShowsFigures, RegistryOk, TotalsAt, ConsumersOf, ConsumersAt;
    var u := SyncedRegistry(r, FreshGaps(b), FreshConsumers(b), now);
    forall c | c in u.chains && c.active
      ensures ShowsFigures(c, TotalsAt(b, c.key), ConsumersOf(b, c.key)) && TotalsAt(b, c.key).demand > 0
    {
      RowIsTotal(b, c.key);
      ConsumerRow(b, c.key);
    }
  }

  lemma DemandedIsDemand(b: Book, k: GapKey)
    ensures Demanded(FreshGaps(b), k) <==> TotalsAt(b, k).demand > 0
  {
    RowIsTotal(b, k);
    hide FreshGaps, TotalsAt;
  }

  /** A sync follows demand: a gap with demand keeps the chain it has, a gap without has none, and a gap
      with demand goes without only if all 256 places are taken. A full registry gives out no chain. */
  lemma FollowingRegistry(r: Registry, u: Registry, b: Book, now: nat)
    requires Follows(r, u, b, now)
    ensures RegistryOk(u) && ShowGaps(u.chains, b)
    ensures forall k | k in u.index :: TotalsAt(b, k).demand > 0 && (k !in r.index ==> !Full(r.chains))
    ensures forall k | TotalsAt(b, k).demand > 0 :: k in u.index || |u.chains| == CHAIN_CAPACITY
    ensures forall k | k in r.index && TotalsAt(b, k).demand > 0 :: k in u.index && u.index[k] == r.index[k]
    ensures forall c | c in r.chains && c.active && TotalsAt(b, c.key).demand == 0 ::
              exists d :: d in u.chains && d.id == c.id && !d.active
  {
    hide SyncedRegistry, FreshGaps, FreshConsumers, RegistryOk, TotalsAt, ShowGaps, Demanded, Synced, Closed;
    var told :| Alike(r.chains, told) && RegistryOk(r.(chains := told)) &&
                u == SyncedRegistry(r.(chains := told), FreshGaps(b), FreshConsumers(b), now);
    var m := r.(chains := told);
    SyncFollowsGaps(m, FreshGaps(b), FreshConsumers(b), now);
    SyncShowsGaps(m, b, now);
    AlikeIsFull(r.chains, told);
    forall k
      ensures Demanded(FreshGaps(b), k) <==> TotalsAt(b, k).demand > 0
    {
      DemandedIsDemand(b, k);
    }
    forall k | TotalsAt(b, k).demand > 0
      ensures k in u.index || |u.chains| == CHAIN_CAPACITY
    {
      DemandedHasRow(FreshGaps(b), k);
    }
    forall c | c in r.chains && c.active && TotalsAt(b, c.key).demand == 0
      ensures exists d :: d in u.chains && d.id == c.id && !d.active
    {
      var i :| 0 <= i < |r.chains| && r.chains[i] == c;
      assert SameButHistory(c, told[i]) && told[i] in told;
      ClosedIsInactive(told[i], now);
      assert SyncOf(told[i], FreshGaps(b), FreshConsumers(b), now) in u.chains;
    }
  }

  /** What a sync makes of a chain: it goes on with the figures of its gap while there is demand, and ends when
      there is none. */
  lemma ChainFollows(r: Registry, u: Registry, b: Book, now: nat, c: Chain)
    requires Follows(r, u, b, now) && c in r.chains && c.active
    ensures if TotalsAt(b, c.key).demand == 0 then exists d | d in u.chains :: Ended(c, d, now)
            else exists d | d in u.chains ::
                   d.id == c.id && d.key == c.key && d.active && d.createdAt == c.createdAt &&
                   ShowsFigures(d, TotalsAt(b, c.key), ConsumersOf(b, c.key))
  {
    hide SyncedRegistry, FreshGaps, FreshConsumers, TotalsAt, ConsumersOf, ConsumersAt, Demanded, Synced, Closed, HistoryOk, ShowsFigures;
    var told :| Alike(r.chains, told) && RegistryOk(r.(chains := told)) &&
                u == SyncedRegistry(r.(chains := told), FreshGaps(b), FreshConsumers(b), now);
    SyncFollowsGaps(r.(chains := told), FreshGaps(b), FreshConsumers(b), now);
    DemandedIsDemand(b, c.key);
    RowIsTotal(b, c.key);
    ConsumerRow(b, c.key);
    var i :| 0 <= i < |r.chains| && r.chains[i] == c;
    assert SameButHistory(c, told[i]) && told[i] in told;
    OneChainSynced(told[i], u.chains, FreshGaps(b), FreshConsumers(b), now);
  }

  lemma OneChainSynced(c: Chain, chains: seq<Chain>, gaps: map<GapKey, GapTotals>, consumers: map<GapKey, seq<uint32>>, now: nat)
    requires HistoryOk(c) && SyncOf(c, gaps, consumers, now) in chains
    ensures !Demanded(gaps, c.key) ==> exists d | d in chains :: Ended(c, d, now)
    ensures Demanded(gaps, c.key) ==>
              exists d | d in chains :: SameStory(c, d, now) && ShowsFigures(d, gaps[c.key], ConsumersAt(consumers, c.key))
  {
    hide Synced, Closed, HistoryOk, ShowsFigures, ConsumersAt, SameStory, Ended;
    ClosedIsInactive(c, now);
    if Demanded(gaps, c.key) {
      SyncedOk(c, gaps[c.key], ConsumersAt(consumers, c.key), now);
    }
  }

  /** The chain on offer is the one the key then has. A key has one if it had, or there is demand and a place: one that
      was never taken or one whose chain is no longer active. */
  lemma OfferStands(r: Registry, key: GapKey, now: nat, hasDemand: bool)
    ensures var u := Ensured(r, key, now, hasDemand);
            && Offer(r, key, hasDemand) == (if key in u.index then Some(u.index[key]) else None)
            && (key in u.index <==> key in r.index || (hasDemand && (|r.chains| < 256 || exists c | c in r.chains :: !c.active)))
  {
    hide Roomy;
    StartedKey(r.nextId, key, now);
    hide Started;
  }

  /** When a chain is started, only a registry of 256 gives one up, the first that is no longer active. */
  lemma OldestMakesWay(r: Registry, key: GapKey, now: nat, i: nat)
    requires RegistryOk(r) && StartsChain(r, key, true) && i < |r.chains|
    ensures var u := Ensured(r, key, now, true);
            r.chains[i] in u.chains <==>
            |r.chains| < 256 || r.chains[i].active || exists j :: 0 <= j < i && !r.chains[j].active
  {
    hide Started, HistoryOk, ActiveFor;
    StartedOk(r.nextId, key, now);
    var first := FirstInactive(r.chains);
    var u := Ensured(r, key, now, true);
    if |r.chains| < 256 {
      assert u.chains[i] == r.chains[i];
    } else if i != first {
      assert u.chains[if i < first then i else i - 1] == r.chains[i];
    } else {
      forall n | 0 <= n < |u.chains|
        ensures u.chains[n].id != r.chains[i].id
      {
      }
    }
  }

  lemma DemandedHasRow(gaps: map<GapKey, GapTotals>, k: GapKey)
    requires Demanded(gaps, k)
    ensures k in gaps
  {
  }

  lemma AlikeIsFull(a: seq<Chain>, b: seq<Chain>)
    requires Alike(a, b)
    ensures Full(a) <==> Full(b)
  {
    if Full(a) {
      forall d | d in b
        ensures d.active
      {
        var i :| 0 <= i < |b| && b[i] == d;
        assert SameButHistory(a[i], b[i]) && a[i] in a;
      }
    }
    if Full(b) {
      forall c | c in a
        ensures c.active
      {
        var i :| 0 <= i < |a| && a[i] == c;
        assert SameButHistory(a[i], b[i]) && b[i] in b;
      }
    }
  }

  lemma AlikeShowGaps(a: seq<Chain>, b: seq<Chain>, book: Book)
    requires Alike(a, b) && ShowGaps(a, book)
    ensures ShowGaps(b, book)
  {
    hide TotalsAt, ConsumersOf;
    forall d | d in b && d.active
      ensures ShowsFigures(d, TotalsAt(book, d.key), ConsumersOf(book, d.key)) && TotalsAt(book, d.key).demand > 0
    {
      var i :| 0 <= i < |b| && b[i] == d;
      assert SameButHistory(a[i], b[i]) && a[i] in a;
    }
  }

  /** A chain started between syncs shows no figures of the demand it was started for. */
  lemma StartedBreaksShow(r: Registry, b: Book, key: GapKey, now: nat)
    requires RegistryOk(r) && StartsChain(r, key, TotalsAt(b, key).demand > 0)
    ensures !ShowGaps(Ensured(r, key, now, true).chains, b)
  {
    hide TotalsAt, ConsumersOf, RegistryOk, ShowsFigures, Started, Roomy;
    StartedOk(r.nextId, key, now);
    StartedShowsNothing(r.nextId, key, now, TotalsAt(b, key), ConsumersOf(b, key));
    var chains := Ensured(r, key, now, true).chains;
    assert chains[|chains| - 1] == Started(r.nextId, key, now);
    assert Started(r.nextId, key, now) in chains;
  }

  lemma SameRowsSameTotals(b: Book, after: Book, k: GapKey)
    requires FreshGaps(after) == FreshGaps(b) && FreshConsumers(after) == FreshConsumers(b)
    ensures TotalsAt(after, k) == TotalsAt(b, k) && ConsumersOf(after, k) == ConsumersOf(b, k)
  {
    hide FreshGaps, FreshConsumers, TotalsAt, ConsumersOf;
    RowIsTotal(b, k);
    RowIsTotal(after, k);
    ConsumerRow(b, k);
    ConsumerRow(after, k);
  }

  lemma SameRowsShowGaps(chains: seq<Chain>, rows: set<GapKey>, b: Book, after: Book)
    requires FreshGaps(after) == FreshGaps(b) && FreshConsumers(after) == FreshConsumers(b)
    ensures ShowGaps(chains, after) <==> ShowGaps(chains, b)
    ensures NeedStands(rows, after) <==> NeedStands(rows, b)
  {
    hide FreshGaps, FreshConsumers, TotalsAt, ConsumersOf, ShowsFigures;
    forall k
      ensures TotalsAt(after, k) == TotalsAt(b, k) && ConsumersOf(after, k) == ConsumersOf(b, k)
    {
      SameRowsSameTotals(b, after, k);
    }
  }

  // ----- chains that no sync has closed

  predicate AllActive(chains: seq<Chain>)
  {
    forall c | c in chains :: c.active
  }

  lemma UpdatedKeepsActive(r: Registry, key: GapKey, t: GapTotals, consumers: seq<uint32>, now: nat)
    requires RegistryOk(r) && AllActive(r.chains)
    ensures AllActive(Updated(r, key, t, consumers, now).chains)
  {
    hide RegistryOk, Started, Synced;
    var e := Ensured(r, key, now, true);
    EnsuredEffect(r, key, now, true);
    StartedIsActive(r.nextId, key, now);
    hide Ensured;
    if key in e.index && Find(e.chains, e.index[key]) < |e.chains| {
      var i := Find(e.chains, e.index[key]);
      SyncedKeepsActive(e.chains[i], t, consumers, now);
      assert e.chains[i] in e.chains;
    }
  }

  lemma StartedIsActive(id: nat, key: GapKey, now: nat)
    ensures Started(id, key, now).active
  {
  }

  lemma {:induction false} UpdatedAllKeepsActive(r: Registry, keys: seq<GapKey>, gaps: map<GapKey, GapTotals>,
                                                 consumers: map<GapKey, seq<uint32>>, now: nat)
    requires RegistryOk(r) && AllActive(r.chains) && Distinct(keys)
    ensures AllActive(UpdatedAll(r, keys, gaps, consumers, now).chains)
  {
    hide RegistryOk, AllActive, Updated;
    if keys == [] {
    } else {
      var n := |keys| - 1;
      UpdatedAllKeepsActive(r, keys[..n], gaps, consumers, now);
      UpdatedAllEffect(r, keys[..n], gaps, consumers, now);
      var before := UpdatedAll(r, keys[..n], gaps, consumers, now);
      if Demanded(gaps, keys[n]) {
        UpdatedKeepsActive(before, keys[n], gaps[keys[n]], ConsumersAt(consumers, keys[n]), now);
      }
    }
  }

  /** A sync of an empty registry closes nothing. */
  lemma FirstSyncIsActive(r: Registry, u: Registry, b: Book, now: nat)
    requires r.chains == [] && r.index == map[] && Follows(r, u, b, now)
    ensures AllActive(u.chains)
  {
    hide SyncedRegistry, FreshGaps, FreshConsumers, UpdatedAll, AllActive;
    var told :| Alike(r.chains, told) && RegistryOk(r.(chains := told)) &&
                u == SyncedRegistry(r.(chains := told), FreshGaps(b), FreshConsumers(b), now);
    assert r.(chains := told) == r;
    FirstSyncCloses(r, FreshGaps(b), FreshConsumers(b), now);
  }

  lemma FirstSyncCloses(r: Registry, gaps: map<GapKey, GapTotals>, consumers: map<GapKey, seq<uint32>>, now: nat)
    requires RegistryOk(r) && r.chains == [] && r.index == map[]
    ensures AllActive(SyncedRegistry(r, gaps, consumers, now).chains)
  {
    hide RegistryOk, UpdatedAll, AscendingKeys;
    var keys := AscendingKeys(gaps.Keys);
    AscendingKeysDistinct(gaps.Keys);
    UpdatedAllEffect(r, keys, gaps, consumers, now);
    UpdatedAllKeepsActive(r, keys, gaps, consumers, now);
    var updated := UpdatedAll(r, keys, gaps, consumers, now);
    assert Settled(updated, gaps) == {};
    assert AscendingKeys({}) == [] by { NothingLeft([]); }
  }
}
