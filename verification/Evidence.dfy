/** Observed prices: at most 64 per market and substitution group are kept, the newest. */
module Evidence {
  import opened Economy

  const MAX_EVIDENCE_PER_GROUP: nat := 64

  datatype Source = Sale | Listing | Recovery | Speculation

  datatype Observation = Observation(
    market: uint32,
    item: uint32,
    group: string,
    source: Source,
    auctionId: uint32,
    unitPrice: nat,
    quantity: uint32,
    observedAt: nat,
    expiresAt: nat,
    publicId: string)

  datatype EvidenceKey = EvidenceKey(market: uint32, group: string)

  function KeyOf(o: Observation): EvidenceKey { EvidenceKey(o.market, o.group) }

  predicate IsValid(o: Observation)
  {
    && o.market != 0 && o.item != 0 && o.group != "" && 0 < o.unitPrice <= MAX_UINT64 && o.quantity != 0
    && o.expiresAt > o.observedAt
  }

  predicate AllValid(s: seq<Observation>)
  {
    forall i | 0 <= i < |s| :: IsValid(s[i])
  }

  /** How many observations of a key there are. */
  function CountKey(s: seq<Observation>, key: EvidenceKey): nat
  {
    if s == [] then 0 else CountKey(s[..|s| - 1], key) + if KeyOf(s[|s| - 1]) == key then 1 else 0
  }

  function Live(s: seq<Observation>, now: nat): seq<Observation>
  {
    if s == [] then []
    else Live(s[..|s| - 1], now) + if s[|s| - 1].expiresAt <= now then [] else [s[|s| - 1]]
  }

  /** The marked elements, in order. */
  function Select(s: seq<Observation>, keep: seq<bool>): seq<Observation>
    requires |s| == |keep|
  {
    if s == [] then []
    else Select(s[..|s| - 1], keep[..|s| - 1]) + if keep[|s| - 1] then [s[|s| - 1]] else []
  }

  function CountKept(s: seq<Observation>, keep: seq<bool>, key: EvidenceKey): nat
    requires |s| == |keep|
  {
    if s == [] then 0
    else CountKept(s[..|s| - 1], keep[..|s| - 1], key) + if keep[|s| - 1] && KeyOf(s[|s| - 1]) == key then 1 else 0
  }

  lemma {:induction false} SelectCounts(s: seq<Observation>, keep: seq<bool>, key: EvidenceKey)
    requires |s| == |keep|
    ensures CountKey(Select(s, keep), key) == CountKept(s, keep, key)
  {
    if s == [] {
    } else {
      var n := |s| - 1;
      SelectCounts(s[..n], keep[..n], key);
      var rest := Select(s[..n], keep[..n]);
      assert (rest + [s[n]])[..|rest|] == rest;
      assert rest + [] == rest;
    }
  }

  lemma {:induction false} KeepAll(s: seq<Observation>, key: EvidenceKey, keep: seq<bool>)
    requires |s| == |keep| && forall i | 0 <= i < |s| && KeyOf(s[i]) == key :: keep[i]
    ensures CountKept(s, keep, key) == CountKey(s, key)
  {
    if s == [] {
    } else {
      KeepAll(s[..|s| - 1], key, keep[..|s| - 1]);
    }
  }

  lemma {:induction false} DropOne(s: seq<Observation>, keep: seq<bool>, key: EvidenceKey, i: nat)
    requires |s| == |keep| && i < |s| && keep[i]
    ensures CountKept(s, keep[i := false], key) + (if KeyOf(s[i]) == key then 1 else 0) == CountKept(s, keep, key)
  {
    var n := |s| - 1;
    var after := keep[i := false];
    if i == n {
      assert after[..n] == keep[..n];
    } else {
      assert after[..n] == keep[..n][i := false];
      DropOne(s[..n], keep[..n], key, i);
    }
  }

  // ----- the newest of a group

  /** Positions of a key's observations, in order. */
  function Positions(s: seq<Observation>, key: EvidenceKey): (r: seq<nat>)
    ensures forall p | 0 <= p < |r| :: r[p] < |s| && KeyOf(s[r[p]]) == key
    ensures forall p, q | 0 <= p < q < |r| :: r[p] < r[q]
    ensures |r| == CountKey(s, key)
  {
    if s == [] then []
    else Positions(s[..|s| - 1], key) + if KeyOf(s[|s| - 1]) == key then [|s| - 1] else []
  }

  /** Inserted after everything at least as recent. */
  function InsertRecent(s: seq<Observation>, order: seq<nat>, i: nat): (r: seq<nat>)
    requires i < |s| && forall p | 0 <= p < |order| :: order[p] < |s|
    ensures multiset(r) == multiset(order) + multiset{i} && |r| == |order| + 1
    ensures forall p | 0 <= p < |r| :: r[p] < |s|
  {
    if order == [] then [i]
    else
      var n := |order| - 1;
      assert order == order[..n] + [order[n]];
      if s[i].observedAt > s[order[n]].observedAt then InsertRecent(s, order[..n], i) + [order[n]] else order + [i]
  }

  /** Sorted by time of observation, most recent first. */
  function ByRecency(s: seq<Observation>, order: seq<nat>): (r: seq<nat>)
    requires forall p | 0 <= p < |order| :: order[p] < |s|
    ensures multiset(r) == multiset(order) && |r| == |order|
    ensures forall p | 0 <= p < |r| :: r[p] < |s|
  {
    if order == [] then []
    else
      assert order == order[..|order| - 1] + [order[|order| - 1]];
      InsertRecent(s, ByRecency(s, order[..|order| - 1]), order[|order| - 1])
  }

  predicate Recent(s: seq<Observation>, order: seq<nat>)
    requires forall p | 0 <= p < |order| :: order[p] < |s|
  {
    forall p, q | 0 <= p < q < |order| :: s[order[p]].observedAt >= s[order[q]].observedAt
  }

  lemma InsertedMember(s: seq<Observation>, order: seq<nat>, i: nat, p: nat)
    requires i < |s| && (forall q | 0 <= q < |order| :: order[q] < |s|) && p < |InsertRecent(s, order, i)|
    ensures InsertRecent(s, order, i)[p] == i || InsertRecent(s, order, i)[p] in order
  {
    hide InsertRecent;
    var r := InsertRecent(s, order, i);
    assert r[p] in multiset(r);
  }

  lemma {:induction false} InsertKeepsRecent(s: seq<Observation>, order: seq<nat>, i: nat)
    requires i < |s| && (forall p | 0 <= p < |order| :: order[p] < |s|) && Recent(s, order)
    ensures Recent(s, InsertRecent(s, order, i))
  {
    if order == [] {
    } else {
      var n := |order| - 1;
      if s[i].observedAt > s[order[n]].observedAt {
        var front := InsertRecent(s, order[..n], i);
        InsertKeepsRecent(s, order[..n], i);
        forall p | 0 <= p < |front|
          ensures s[front[p]].observedAt >= s[order[n]].observedAt
        {
          InsertedMember(s, order[..n], i, p);
        }
      }
    }
  }

  lemma {:induction false} ByRecencyIsRecent(s: seq<Observation>, order: seq<nat>)
    requires forall p | 0 <= p < |order| :: order[p] < |s|
    ensures Recent(s, ByRecency(s, order))
  {
    if order == [] {
    } else {
      ByRecencyIsRecent(s, order[..|order| - 1]);
      InsertKeepsRecent(s, ByRecency(s, order[..|order| - 1]), order[|order| - 1]);
    }
  }

  lemma {:induction false} PositionsHold(s: seq<Observation>, key: EvidenceKey, i: nat)
    requires i < |s| && KeyOf(s[i]) == key
    ensures i in Positions(s, key)
  {
    if i < |s| - 1 {
      PositionsHold(s[..|s| - 1], key, i);
    }
  }

  lemma {:induction false} OnceEach(order: seq<nat>, x: nat)
    requires forall p, q | 0 <= p < q < |order| :: order[p] < order[q]
    ensures multiset(order)[x] <= 1
  {
    if order == [] {
    } else {
      var n := |order| - 1;
      OnceEach(order[..n], x);
      assert order == order[..n] + [order[n]];
      if order[n] == x {
        assert x !in order[..n];
      }
    }
  }

  lemma TwiceIsTwo(order: seq<nat>, p: nat, q: nat)
    requires p < q < |order| && order[p] == order[q]
    ensures multiset(order)[order[p]] >= 2
  {
    assert order == order[..q] + order[q..] && order[q..] == [order[q]] + order[q + 1..];
    assert order[..q][p] == order[p];
    assert multiset(order) == multiset(order[..q]) + multiset{order[q]} + multiset(order[q + 1..]);
    assert order[p] in multiset(order[..q]);
  }

  lemma GroupOrderMembers(s: seq<Observation>, key: EvidenceKey, i: nat)
    ensures i in ByRecency(s, Positions(s, key)) <==> i < |s| && KeyOf(s[i]) == key
  {
    hide ByRecency, Positions;
    var positions := Positions(s, key);
    var order := ByRecency(s, positions);
    assert i in multiset(order) <==> i in multiset(positions);
    if i < |s| && KeyOf(s[i]) == key {
      PositionsHold(s, key, i);
    }
  }

  lemma GroupOrderDistinct(s: seq<Observation>, key: EvidenceKey, p: nat, q: nat)
    requires p < q < |ByRecency(s, Positions(s, key))|
    ensures ByRecency(s, Positions(s, key))[p] != ByRecency(s, Positions(s, key))[q]
  {
    hide ByRecency, Positions;
    var order := ByRecency(s, Positions(s, key));
    OnceEach(Positions(s, key), order[p]);
    if order[p] == order[q] {
      TwiceIsTwo(order, p, q);
    }
  }

  /** A group in order of recency: each of its positions once. */
  lemma GroupOrder(s: seq<Observation>, key: EvidenceKey)
    ensures var order := ByRecency(s, Positions(s, key));
            && |order| == CountKey(s, key) && Recent(s, order)
            && (forall p | 0 <= p < |order| :: order[p] < |s| && KeyOf(s[order[p]]) == key)
            && (forall p, q | 0 <= p < q < |order| :: order[p] != order[q])
            && (forall i | 0 <= i < |s| && KeyOf(s[i]) == key :: i in order)
  {
    hide ByRecency, Positions, Recent, CountKey;
    var order := ByRecency(s, Positions(s, key));
    ByRecencyIsRecent(s, Positions(s, key));
    forall p | 0 <= p < |order|
      ensures order[p] < |s| && KeyOf(s[order[p]]) == key
    {
      GroupOrderMembers(s, key, order[p]);
    }
    forall p, q | 0 <= p < q < |order|
      ensures order[p] != order[q]
    {
      GroupOrderDistinct(s, key, p, q);
    }
    forall i | 0 <= i < |s| && KeyOf(s[i]) == key
      ensures i in order
    {
      GroupOrderMembers(s, key, i);
    }
  }

  /** Of one key, as many as the cap allows are kept, and nothing kept is older than what goes. */
  predicate GroupCapped(s: seq<Observation>, keep: seq<bool>, key: EvidenceKey)
    requires |s| == |keep|
  {
    && CountKept(s, keep, key) == Min(MAX_EVIDENCE_PER_GROUP, CountKey(s, key))
    && forall i, j | 0 <= i < |s| && 0 <= j < |s| && KeyOf(s[i]) == key && KeyOf(s[j]) == key && keep[i] && !keep[j] ::
         s[j].observedAt <= s[i].observedAt
  }

  ghost predicate Capped(s: seq<Observation>, keep: seq<bool>)
    requires |s| == |keep|
  {
    forall key :: GroupCapped(s, keep, key)
  }

  predicate WholeGroup(s: seq<Observation>, keep: seq<bool>, key: EvidenceKey)
    requires |s| == |keep|
  {
    forall i | 0 <= i < |s| && KeyOf(s[i]) == key :: keep[i]
  }

  predicate SameElsewhere(s: seq<Observation>, before: seq<bool>, after: seq<bool>, key: EvidenceKey)
    requires |s| == |before| == |after|
  {
    forall i | 0 <= i < |s| && KeyOf(s[i]) != key :: after[i] == before[i]
  }

  /** Drops all but the newest of one key. */
  method CapGroup(s: seq<Observation>, before: seq<bool>, key: EvidenceKey) returns (keep: seq<bool>)
    requires |s| == |before| && WholeGroup(s, before, key)
    ensures |keep| == |s| && GroupCapped(s, keep, key) && SameElsewhere(s, before, keep, key)
  {
    hide CountKept, CountKey, Positions, ByRecency;
    var order := ByRecency(s, Positions(s, key));
    GroupOrder(s, key);
    KeepAll(s, key, before);
    keep := before;
    var p := MAX_EVIDENCE_PER_GROUP;
    while p < |order|
      invariant MAX_EVIDENCE_PER_GROUP <= p && (p <= |order| || p == MAX_EVIDENCE_PER_GROUP)
      invariant |keep| == |s| && SameElsewhere(s, before, keep, key)
      invariant forall q | 0 <= q < |order| :: keep[order[q]] <==> q < MAX_EVIDENCE_PER_GROUP || q >= p
      invariant CountKept(s, keep, key) + (p - MAX_EVIDENCE_PER_GROUP) == CountKey(s, key)
    {
      DropOne(s, keep, key, order[p]);
      keep := keep[order[p] := false];
      p := p + 1;
    }
    CappedByOrder(s, keep, key, order);
  }

  lemma CappedByOrder(s: seq<Observation>, keep: seq<bool>, key: EvidenceKey, order: seq<nat>)
    requires |s| == |keep| && (forall p | 0 <= p < |order| :: order[p] < |s|) && Recent(s, order)
    requires forall i | 0 <= i < |s| && KeyOf(s[i]) == key :: i in order
    requires forall q | 0 <= q < |order| :: keep[order[q]] <==> q < MAX_EVIDENCE_PER_GROUP
    ensures forall i, j | 0 <= i < |s| && 0 <= j < |s| && KeyOf(s[i]) == key && KeyOf(s[j]) == key && keep[i] && !keep[j] ::
              s[j].observedAt <= s[i].observedAt
  {
    forall i, j | 0 <= i < |s| && 0 <= j < |s| && KeyOf(s[i]) == key && KeyOf(s[j]) == key && keep[i] && !keep[j]
      ensures s[j].observedAt <= s[i].observedAt
    {
      var a :| 0 <= a < |order| && order[a] == i;
      var b :| 0 <= b < |order| && order[b] == j;
    }
  }

  lemma OtherGroupsSame(s: seq<Observation>, before: seq<bool>, after: seq<bool>, key: EvidenceKey, other: EvidenceKey)
    requires |s| == |before| == |after| && SameElsewhere(s, before, after, key) && key != other
    ensures GroupCapped(s, before, other) ==> GroupCapped(s, after, other)
    ensures WholeGroup(s, before, other) ==> WholeGroup(s, after, other)
  {
    SameCount(s, before, after, key, other);
    hide CountKept, CountKey;
  }

  lemma {:induction false} SameCount(s: seq<Observation>, before: seq<bool>, after: seq<bool>, key: EvidenceKey, other: EvidenceKey)
    requires |s| == |before| == |after| && SameElsewhere(s, before, after, key) && key != other
    ensures CountKept(s, after, other) == CountKept(s, before, other)
  {
    if s == [] {
    } else {
      var n := |s| - 1;
      SameCount(s[..n], before[..n], after[..n], key, other);
    }
  }

  lemma {:induction false} NoneOf(s: seq<Observation>, key: EvidenceKey)
    requires forall i | 0 <= i < |s| :: KeyOf(s[i]) != key
    ensures CountKey(s, key) == 0
  {
    if s == [] {
    } else {
      NoneOf(s[..|s| - 1], key);
    }
  }

  method DropExpired(s: seq<Observation>, now: nat) returns (live: seq<Observation>)
    ensures live == Live(s, now)
  {
    live := [];
    for i := 0 to |s|
      invariant live == Live(s[..i], now)
    {
      assert s[..i + 1][..i] == s[..i];
      if s[i].expiresAt > now {
        live := live + [s[i]];
      }
    }
    assert s[..|s|] == s;
  }

  /** What pruning does to stored evidence. */
  ghost predicate PrunedTo(s: seq<Observation>, now: nat, keep: seq<bool>, r: seq<Observation>)
  {
    |keep| == |Live(s, now)| && Capped(Live(s, now), keep) && r == Select(Live(s, now), keep)
  }

  method Prune(s: seq<Observation>, now: nat) returns (r: seq<Observation>)
    ensures exists keep :: PrunedTo(s, now, keep, r)
  {
    hide CountKept, CountKey, GroupCapped, WholeGroup, SameElsewhere, Select, Live;
    var live := DropExpired(s, now);
    var keep := seq(|live|, i => true);
    var todo := set i | 0 <= i < |live| :: KeyOf(live[i]);
    AtFirst(live, keep, todo);
    while todo != {}
      invariant |keep| == |live|
      invariant forall key :: if key in todo then WholeGroup(live, keep, key) else GroupCapped(live, keep, key)
    {
      var key :| key in todo;
      var before := keep;
      keep := CapGroup(live, keep, key);
      forall other | other != key
        ensures GroupCapped(live, before, other) ==> GroupCapped(live, keep, other)
        ensures WholeGroup(live, before, other) ==> WholeGroup(live, keep, other)
      {
        OtherGroupsSame(live, before, keep, key, other);
      }
      todo := todo - {key};
    }
    r := [];
    NothingSelected(live, keep);
    for i := 0 to |live|
      invariant r == Select(live[..i], keep[..i])
    {
      SelectNext(live, keep, i);
      if keep[i] {
        r := r + [live[i]];
      }
    }
    assert live[..|live|] == live && keep[..|live|] == keep;
    assert PrunedTo(s, now, keep, r);
  }

  lemma NothingSelected(s: seq<Observation>, keep: seq<bool>)
    requires |s| == |keep|
    ensures Select(s[..0], keep[..0]) == []
  {
  }

  lemma SelectNext(s: seq<Observation>, keep: seq<bool>, i: nat)
    requires |s| == |keep| && i < |s|
    ensures Select(s[..i + 1], keep[..i + 1]) == Select(s[..i], keep[..i]) + if keep[i] then [s[i]] else []
  {
    assert s[..i + 1][..i] == s[..i] && keep[..i + 1][..i] == keep[..i];
  }

  lemma AtFirst(live: seq<Observation>, keep: seq<bool>, todo: set<EvidenceKey>)
    requires |keep| == |live| && (forall i | 0 <= i < |keep| :: keep[i])
    requires todo == set i | 0 <= i < |live| :: KeyOf(live[i])
    ensures forall key :: if key in todo then WholeGroup(live, keep, key) else GroupCapped(live, keep, key)
  {
    forall key
      ensures if key in todo then WholeGroup(live, keep, key) else GroupCapped(live, keep, key)
    {
      if key !in todo {
        NoneOf(live, key);
        KeepAll(live, key, keep);
      }
    }
  }

  // ----- what is left

  lemma {:induction false} SelectedIsStored(s: seq<Observation>, keep: seq<bool>)
    requires |s| == |keep|
    ensures forall o | o in Select(s, keep) :: o in s
  {
    if s == [] {
    } else {
      SelectedIsStored(s[..|s| - 1], keep[..|s| - 1]);
    }
  }

  lemma {:induction false} LiveIsStored(s: seq<Observation>, now: nat)
    ensures forall o :: o in Live(s, now) <==> o in s && o.expiresAt > now
  {
    if s == [] {
    } else {
      LiveIsStored(s[..|s| - 1], now);
      assert forall o :: o in s <==> o in s[..|s| - 1] || o == s[|s| - 1];
    }
  }

  /** After pruning, no key has more than the cap; each has all its unexpired observations up to the
      cap; and everything left was stored and has not expired. */
  lemma PrunedIsBounded(s: seq<Observation>, now: nat, keep: seq<bool>, r: seq<Observation>, key: EvidenceKey)
    requires PrunedTo(s, now, keep, r)
    ensures CountKey(r, key) == Min(MAX_EVIDENCE_PER_GROUP, CountKey(Live(s, now), key))
    ensures forall o | o in r :: o in s && o.expiresAt > now
  {
    hide CountKept, CountKey, Select, Live;
    assert GroupCapped(Live(s, now), keep, key);
    SelectCounts(Live(s, now), keep, key);
    SelectedIsStored(Live(s, now), keep);
    LiveIsStored(s, now);
  }
}
