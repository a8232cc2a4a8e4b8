/**
 The economy trace: a ring of the last events with an index of their deduplication keys. A named
 chain holds at most 128 events, the ring 2048; the oldest give way.
 */
module Trace {
  import opened Economy

  const GLOBAL_CAPACITY: nat := 2048
  const PER_CHAIN_CAPACITY: nat := 128

  datatype Kind = Gathered | Crafted | Listed | Purchased | Delivered | SaleSettled | Expired | FinalUse

  datatype UseKind =
    | NoUse
    | Equipped
    | AmmunitionSet
    | Consumed
    | Applied
    | Transformed
    | Vendored
    | Learned
    | Recovered
    | Lost

  datatype Details = Details(
    actor: uint32,
    counterparty: uint32,
    counterpartyIsCreature: bool,
    item: uint32,
    recipe: uint32,
    quantity: uint32,
    prices: seq<nat>,
    occurredAt: nat,
    auctionId: uint32,
    mailId: uint32,
    kind: Kind,
    use: UseKind)

  datatype Record = Record(key: string, chain: string, details: Details)

  datatype Event = Event(sequence: nat, chain: string, details: Details)

  datatype KeyEntry = KeyEntry(key: string, sequence: nat)

  datatype Snapshot = Snapshot(generation: nat, totalCount: nat, truncatedCount: nat, events: seq<Event>)

  predicate IsValid(r: Record)
  {
    && r.key != "" && (r.chain != "" || r.details.kind.Gathered?) && r.details.actor != 0 && r.details.item != 0
    && r.details.quantity != 0 && r.details.occurredAt != 0
    && (r.details.kind.FinalUse? <==> !r.details.use.NoUse?)
  }

  function CountChain(events: seq<Event>, chain: string): nat
  {
    if events == [] then 0
    else CountChain(events[..|events| - 1], chain) + if events[|events| - 1].chain == chain then 1 else 0
  }

  function OldestOf(events: seq<Event>, chain: string): (i: nat)
    ensures i <= |events|
    ensures i < |events| ==> events[i].chain == chain
    ensures forall j | 0 <= j < i :: events[j].chain != chain
  {
    if events == [] then 0
    else
      var n := |events| - 1;
      var i := OldestOf(events[..n], chain);
      if i < n then i else if events[n].chain == chain then n else n + 1
  }

  lemma CountAppend(events: seq<Event>, e: Event, chain: string)
    ensures CountChain(events + [e], chain) == CountChain(events, chain) + if e.chain == chain then 1 else 0
  {
    assert (events + [e])[..|events|] == events;
  }

  lemma {:induction false} CountWithout(events: seq<Event>, i: nat, chain: string)
    requires i < |events|
    ensures CountChain(Without(events, i), chain) + (if events[i].chain == chain then 1 else 0) == CountChain(events, chain)
  {
    var n := |events| - 1;
    if i == n {
      assert Without(events, i) == events[..n];
    } else {
      assert Without(events, i)[..n - 1] == Without(events[..n], i);
      assert Without(events, i)[n - 1] == events[n];
      CountWithout(events[..n], i, chain);
    }
  }

  lemma {:induction false} NoneOfChain(events: seq<Event>, chain: string)
    requires OldestOf(events, chain) == |events|
    ensures CountChain(events, chain) == 0
  {
    if events == [] {
    } else {
      NoneOfChain(events[..|events| - 1], chain);
    }
  }

  /** The ring with a new event, less the oldest of its chain if that is over-full. */
  function Chained(events: seq<Event>, e: Event): seq<Event>
  {
    var all := events + [e];
    var oldest := OldestOf(all, e.chain);
    if e.chain != "" && CountChain(all, e.chain) > PER_CHAIN_CAPACITY && oldest < |all| then Without(all, oldest) else all
  }

  /** What one record leaves of the ring: gone is also the oldest of all if the ring is over-full. */
  function Recorded(events: seq<Event>, e: Event): seq<Event>
  {
    var chained := Chained(events, e);
    if |chained| > GLOBAL_CAPACITY then chained[1..] else chained
  }

  /** The oldest of several is not the last. */
  lemma OldestOfSeveral(events: seq<Event>, chain: string)
    requires CountChain(events, chain) >= 2
    ensures OldestOf(events, chain) < |events| - 1
  {
    var i, n := OldestOf(events, chain), |events| - 1;
    if i > n {
      NoneOfChain(events, chain);
    } else if i == n {
      assert OldestOf(events[..n], chain) == n;
      NoneOfChain(events[..n], chain);
    }
  }

  lemma ChainCapped(events: seq<Event>, e: Event)
    requires WithinCapacity(events)
    ensures WithinChains(Chained(events, e)) && |Chained(events, e)| <= GLOBAL_CAPACITY + 1
    ensures var all := events + [e];
            e.chain != "" && CountChain(all, e.chain) > PER_CHAIN_CAPACITY ==> OldestOf(all, e.chain) < |all| - 1
  {
    var all := events + [e];
    hide CountChain, OldestOf;
    if e.chain != "" && CountChain(all, e.chain) > PER_CHAIN_CAPACITY {
      OldestOfSeveral(all, e.chain);
    }
    forall chain | chain != ""
      ensures CountChain(Chained(events, e), chain) <= PER_CHAIN_CAPACITY
    {
      CountAppend(events, e, chain);
      var oldest := OldestOf(all, e.chain);
      if e.chain != "" && CountChain(all, e.chain) > PER_CHAIN_CAPACITY {
        CountWithout(all, oldest, chain);
      }
    }
  }

  predicate ChainFull(events: seq<Event>, chain: string)
  {
    chain != "" && CountChain(events, chain) == 128
  }

  predicate Climb(events: seq<Event>)
  {
    forall a, b | 0 <= a < b < |events| :: events[a].sequence < events[b].sequence
  }

  lemma RecordedIs(events: seq<Event>, e: Event)
    requires WithinCapacity(events)
    ensures var all := events + [e];
            var oldest := OldestOf(all, e.chain);
            if ChainFull(events, e.chain) then oldest < |events| && Recorded(events, e) == Without(all, oldest)
            else Recorded(events, e) == if |events| == 2048 then Without(all, 0) else all
  {
    ChainCapped(events, e);
    CountAppend(events, e, e.chain);
    hide CountChain, OldestOf, WithinChains;
    assert (events + [e])[1..] == Without(events + [e], 0);
  }

  lemma OldestIff(events: seq<Event>, e: Event, i: nat)
    requires i < |events|
    ensures i == OldestOf(events + [e], e.chain) <==> events[i].chain == e.chain && forall j | 0 <= j < i :: events[j].chain != e.chain
  {
    hide OldestOf;
    var all := events + [e];
    assert forall j | 0 <= j < |events| :: all[j] == events[j];
  }

  lemma GoneIff(all: seq<Event>, n: nat, i: nat)
    requires n < |all| && i < |all| && Climb(all)
    ensures all[i] !in Without(all, n) <==> i == n
  {
    WithoutMembers(all, n);
    hide Without;
    assert i != n ==> all[i] != all[n];
  }

  /** What a new event costs: the oldest of its chain if that holds 128 already, or else the oldest of all if the
      ring holds 2048; and nothing more. */
  lemma LostForRoom(events: seq<Event>, e: Event, i: nat)
    requires WithinCapacity(events) && i < |events| && Climb(events + [e])
    ensures e in Recorded(events, e)
    ensures events[i] !in Recorded(events, e) <==>
            if ChainFull(events, e.chain) then events[i].chain == e.chain && forall j | 0 <= j < i :: events[j].chain != e.chain
            else i == 0 && |events| == 2048
  {
    hide CountChain, WithinChains, Recorded, ChainFull, Without, OldestOf, Climb;
    RecordedIs(events, e);
    OldestIff(events, e, i);
    var all := events + [e];
    assert all[|events|] == e && all[i] == events[i];
    if ChainFull(events, e.chain) {
      GoneIff(all, OldestOf(all, e.chain), i);
      GoneIff(all, OldestOf(all, e.chain), |events|);
    } else if |events| == 2048 {
      GoneIff(all, 0, i);
      GoneIff(all, 0, |events|);
    }
  }

  lemma FewerWithinChains(events: seq<Event>)
    requires WithinChains(events) && events != []
    ensures WithinChains(events[1..])
  {
    hide CountChain;
    forall chain | chain != ""
      ensures CountChain(events[1..], chain) <= PER_CHAIN_CAPACITY
    {
      CountWithout(events, 0, chain);
      assert Without(events, 0) == events[1..];
    }
  }

  lemma {:induction false} SequencesClimb(events: seq<Event>, i: nat)
    requires i < |events| && forall j | 0 <= j < |events| :: events[j].sequence > 0
    requires forall a, b | 0 <= a < b < |events| :: events[a].sequence < events[b].sequence
    ensures events[i].sequence >= i + 1
  {
    if i == 0 {
    } else {
      SequencesClimb(events, i - 1);
    }
  }

  /** Never more is kept than was recorded. */
  lemma KeptIsFewer(recorded: seq<Event>, events: seq<Event>, keys: seq<KeyEntry>, nextSequence: nat)
    requires Indexed(events, keys, nextSequence) && Numbered(recorded, nextSequence) && NewestKept(recorded, events)
    ensures |events| <= |recorded|
  {
    if events != [] {
      forall j | 0 <= j < |events|
        ensures events[j].sequence > 0
      {
        assert events[j] in recorded;
      }
      SequencesClimb(events, |events| - 1);
    }
  }

  // ----- what holds between calls

  /** Events in order of their sequence numbers, each matched by its own key entry. */
  predicate Indexed(events: seq<Event>, keys: seq<KeyEntry>, nextSequence: nat)
  {
    && |keys| == |events|
    && (forall i | 0 <= i < |events| :: keys[i].sequence == events[i].sequence < nextSequence)
    && (forall i, j | 0 <= i < j < |events| :: events[i].sequence < events[j].sequence)
    && (forall i, j | 0 <= i < j < |keys| :: keys[i].key != keys[j].key)
  }

  ghost predicate WithinChains(events: seq<Event>)
  {
    forall chain | chain != "" :: CountChain(events, chain) <= PER_CHAIN_CAPACITY
  }

  ghost predicate WithinCapacity(events: seq<Event>)
  {
    |events| <= GLOBAL_CAPACITY && WithinChains(events)
  }

  /** Every kept event was recorded; and an event is only gone if every earlier one of its chain is. */
  predicate NewestKept(recorded: seq<Event>, events: seq<Event>)
  {
    && (forall i | 0 <= i < |events| :: events[i] in recorded)
    && (forall i, j | 0 <= i < j < |recorded| && recorded[i].chain == recorded[j].chain && recorded[i] in events :: recorded[j] in events)
    && (recorded != [] ==> recorded[|recorded| - 1] in events)
  }

  /** All that was ever recorded, numbered from one. */
  predicate Numbered(recorded: seq<Event>, nextSequence: nat)
  {
    nextSequence == |recorded| + 1 && forall i | 0 <= i < |recorded| :: recorded[i].sequence == i + 1
  }

  lemma AppendKeepsIndex(events: seq<Event>, keys: seq<KeyEntry>, nextSequence: nat, e: Event, k: KeyEntry)
    requires Indexed(events, keys, nextSequence) && e.sequence == k.sequence == nextSequence
    requires forall i | 0 <= i < |keys| :: keys[i].key != k.key
    ensures Indexed(events + [e], keys + [k], nextSequence + 1)
  {
  }

  lemma RemovalKeepsIndex(events: seq<Event>, keys: seq<KeyEntry>, nextSequence: nat, i: nat)
    requires Indexed(events, keys, nextSequence) && i < |events|
    ensures Indexed(Without(events, i), Without(keys, i), nextSequence)
  {
  }

  function KeysWithout(keys: seq<KeyEntry>, sequence: nat): seq<KeyEntry>
  {
    if keys == [] then []
    else KeysWithout(keys[..|keys| - 1], sequence) + if keys[|keys| - 1].sequence == sequence then [] else [keys[|keys| - 1]]
  }

  lemma {:induction false} NoKeyRemoved(keys: seq<KeyEntry>, sequence: nat)
    requires forall i | 0 <= i < |keys| :: keys[i].sequence != sequence
    ensures KeysWithout(keys, sequence) == keys
  {
    if keys == [] {
    } else {
      NoKeyRemoved(keys[..|keys| - 1], sequence);
    }
  }

  /** Erasing by sequence number erases exactly the event's own entry. */
  lemma {:induction false} KeyRemoved(keys: seq<KeyEntry>, i: nat)
    requires i < |keys| && forall a, b | 0 <= a < b < |keys| :: keys[a].sequence < keys[b].sequence
    ensures KeysWithout(keys, keys[i].sequence) == Without(keys, i)
  {
    var n := |keys| - 1;
    if i == n {
      NoKeyRemoved(keys[..n], keys[n].sequence);
    } else {
      KeyRemoved(keys[..n], i);
      assert Without(keys, i) == Without(keys[..n], i) + [keys[n]];
    }
  }

  lemma WithoutMembers(events: seq<Event>, i: nat)
    requires i < |events| && forall a, b | 0 <= a < b < |events| :: events[a].sequence < events[b].sequence
    ensures forall x :: x in Without(events, i) <==> x in events && x != events[i]
  {
    var after := Without(events, i);
    forall x | x in events && x != events[i]
      ensures x in after
    {
      var k :| 0 <= k < |events| && events[k] == x;
      assert after[if k < i then k else k - 1] == x;
    }
    forall x | x in after
      ensures x in events && x != events[i]
    {
      var k :| 0 <= k < |after| && after[k] == x;
      assert events[if k < i then k else k + 1] == x;
    }
  }

  /** Dropping an event that no earlier one of its chain outlives keeps the newest. */
  lemma RemovalKeepsNewest(recorded: seq<Event>, events: seq<Event>, nextSequence: nat, i: nat)
    requires recorded != [] && NewestKept(recorded, events) && Numbered(recorded, nextSequence) && i < |events|
    requires forall a, b | 0 <= a < b < |events| :: events[a].sequence < events[b].sequence
    requires forall j | 0 <= j < i :: events[j].chain != events[i].chain
    requires events[i] != recorded[|recorded| - 1]
    ensures NewestKept(recorded, Without(events, i))
  {
    WithoutMembers(events, i);
    hide Without, Numbered;
    forall a, b | 0 <= a < b < |recorded| && recorded[a].chain == recorded[b].chain && recorded[a] in Without(events, i)
      ensures recorded[b] in Without(events, i)
    {
      assert recorded[b] in events;
    }
  }

  lemma AppendKeepsNewest(recorded: seq<Event>, events: seq<Event>, nextSequence: nat, e: Event)
    requires NewestKept(recorded, events) && Numbered(recorded, nextSequence) && e.sequence == nextSequence
    ensures NewestKept(recorded + [e], events + [e]) && Numbered(recorded + [e], nextSequence + 1)
  {
    var all, ring := recorded + [e], events + [e];
    assert ring[|events|] == e;
    forall x | x in events
      ensures x in ring && x != e
    {
      var k :| 0 <= k < |events| && events[k] == x;
      assert ring[k] == x;
      assert x in recorded;
    }
    forall i, j | 0 <= i < j < |all| && all[i].chain == all[j].chain && all[i] in ring
      ensures all[j] in ring
    {
      assert all[i] != e;
    }
  }

  class Trace {
    var events: seq<Event>
    var keys: seq<KeyEntry>
    var nextSequence: nat
    var totalCount: nat
    var generation: nat
    ghost var recorded: seq<Event>

    ghost predicate Sound()
      reads this
    {
      Indexed(events, keys, nextSequence) && Numbered(recorded, nextSequence) && NewestKept(recorded, events) && totalCount == |recorded|
    }

    ghost predicate Valid()
      reads this
    {
      Sound() && WithinCapacity(events)
    }

    constructor ()
      ensures Valid() && recorded == []
    {
      events, keys, nextSequence, totalCount, generation, recorded := [], [], 1, 0, 0, [];
    }

    /** Removes an event and its key. It must be the oldest of its chain, and not the newest of all. */
    method RemoveEvent(i: nat)
      requires Sound() && i < |events| && recorded != [] && events[i] != recorded[|recorded| - 1]
      requires forall j | 0 <= j < i :: events[j].chain != events[i].chain
      modifies `events, `keys
      ensures Sound() && events == Without(old(events), i)
    {
      hide NewestKept, Numbered, KeysWithout;
      RemovalKeepsNewest(recorded, events, nextSequence, i);
      RemovalKeepsIndex(events, keys, nextSequence, i);
      KeyRemoved(keys, i);
      var sequence := events[i].sequence;
      events := Without(events, i);
      keys := KeysWithout(keys, sequence);
    }

    method Append(r: Record)
      requires Valid() && forall i | 0 <= i < |keys| :: keys[i].key != r.key
      modifies this
      ensures Sound() && events == old(events) + [Event(old(nextSequence), r.chain, r.details)]
      ensures recorded == old(recorded) + [Event(old(nextSequence), r.chain, r.details)]
      ensures nextSequence == old(nextSequence) + 1 && generation == old(generation) + 1
    {
      var e := Event(nextSequence, r.chain, r.details);
      AppendKeepsIndex(events, keys, nextSequence, e, KeyEntry(r.key, nextSequence));
      AppendKeepsNewest(recorded, events, nextSequence, e);
      hide NewestKept, Numbered, Indexed;
      nextSequence := nextSequence + 1;
      keys := keys + [KeyEntry(r.key, e.sequence)];
      events := events + [e];
      recorded := recorded + [e];
      totalCount := totalCount + 1;
      generation := generation + 1;
    }

    method CapChain(ghost before: seq<Event>, ghost e: Event)
      requires Sound() && WithinCapacity(before) && events == before + [e]
      modifies `events, `keys
      ensures Sound() && WithinChains(events) && events == Chained(before, e)
      ensures |events| <= GLOBAL_CAPACITY + 1 && events != [] && events[|events| - 1] == e
    {
      hide NewestKept, Numbered, Indexed, CountChain, OldestOf, WithinChains;
      ChainCapped(before, e);
      var chain := events[|events| - 1].chain;
      if chain != "" && CountChain(events, chain) > PER_CHAIN_CAPACITY {
        var oldest := OldestOf(events, chain);
        NotTheNewest(recorded, events, keys, nextSequence, oldest);
        RemoveEvent(oldest);
      }
    }

    method CapRing()
      requires Sound() && WithinChains(events) && |events| <= GLOBAL_CAPACITY + 1
      modifies `events, `keys
      ensures Valid() && events == if |old(events)| > GLOBAL_CAPACITY then old(events)[1..] else old(events)
    {
      hide NewestKept, Numbered, Indexed, WithinChains;
      ghost var before := events;
      while |events| > GLOBAL_CAPACITY
        invariant Sound() && WithinChains(events)
        invariant events == before || (|before| == GLOBAL_CAPACITY + 1 && events == before[1..])
      {
        NotTheNewest(recorded, events, keys, nextSequence, 0);
        FewerWithinChains(events);
        assert Without(events, 0) == events[1..];
        RemoveEvent(0);
      }
    }

    /** Records an event unless its key is still in the index. */
    method Record(r: Record) returns (recordedNow: bool)
      requires Valid()
      modifies this
      ensures Valid()
      ensures recordedNow <==>
                && r.key != "" && (r.chain == "" ==> r.details.kind.Gathered?) && r.details.actor > 0 && r.details.item > 0
                && r.details.quantity > 0 && r.details.occurredAt > 0 && (r.details.kind.FinalUse? <==> !r.details.use.NoUse?)
                && forall i | 0 <= i < |old(keys)| :: old(keys)[i].key != r.key
      ensures !recordedNow ==> unchanged(this)
      ensures recordedNow ==>
                var e := Event(old(nextSequence), r.chain, r.details);
                events == Recorded(old(events), e) && recorded == old(recorded) + [e]
    {
      hide NewestKept, Numbered, Indexed, WithinChains, Chained;
      recordedNow := false;
      assert forall i | 0 <= i < |keys| :: keys[i] in keys;
      if !IsValid(r) || exists k | k in keys :: k.key == r.key {
        return;
      }
      ghost var before := events;
      Append(r);
      CapChain(before, events[|events| - 1]);
      CapRing();
      recordedNow := true;
    }

    method TakeSnapshot() returns (s: Snapshot)
      requires Valid()
      ensures s.generation == generation && s.events == events && s.totalCount == |recorded|
      ensures s.truncatedCount + |s.events| == |recorded|
    {
      KeptIsFewer(recorded, events, keys, nextSequence);
      s := Snapshot(generation, totalCount, totalCount - |events|, events);
    }
  }

  /** Any event but the last kept one is not the newest of all. */
  lemma NotTheNewest(recorded: seq<Event>, events: seq<Event>, keys: seq<KeyEntry>, nextSequence: nat, i: nat)
    requires Indexed(events, keys, nextSequence) && Numbered(recorded, nextSequence) && NewestKept(recorded, events)
    requires i < |events| - 1
    ensures recorded != [] && events[i] != recorded[|recorded| - 1]
  {
    assert events[|events| - 1] in recorded;
  }
}
