/**
 Conservative loot yields, in basis points per item: loot rows may refer to shared reference tables,
 which may refer to others, and a resolver with a memo and a set of references in progress adds them
 up.
 */
module LootYields {
  import opened Economy

  type int32 = n: int | -0x8000_0000 < n <= 0x7FFF_FFFF

  const BASIS_POINTS: uint32 := 10_000
  const WORD: nat := 0x1_0000_0000_0000_0000

  datatype Row = Row(
    lootId: uint32,
    item: uint32,
    reference: int32,
    chance: uint32,
    group: uint32,
    minimum: uint32,
    maximum: uint32)
  {
    function Target(): uint32 { if reference < 0 then -reference else reference }

    predicate Refers() { reference != 0 }

    function Direct(): nat { chance * minimum }

    /** A 64-bit product; for rows within the ranges they are loaded with it does not wrap. */
    function Scaled(child: uint32): nat { child * chance * maximum % WORD / BASIS_POINTS }
  }

  type Yields = map<uint32, uint32>

  /** Yields are looked up by item; there is nothing of an item without an entry. */
  function At(loot: Yields, item: uint32): uint32
  {
    if item in loot then loot[item] else 0
  }

  function Saturated(a: uint32, b: nat): uint32 { Bounded(a + b) }

  function Add(loot: Yields, item: uint32, amount: nat): Yields
  {
    if item == 0 || amount == 0 then loot else loot[item := Saturated(At(loot, item), amount)]
  }

  /** No entry says zero, and item 0 is no item. */
  predicate Tidy(loot: Yields)
  {
    0 !in loot && forall item | item in loot :: loot[item] > 0
  }

  lemma AddAt(loot: Yields, item: uint32, amount: nat, other: uint32)
    ensures At(Add(loot, item, amount), other) ==
            if other == item && item != 0 then Saturated(At(loot, item), amount) else At(loot, other)
    ensures Tidy(loot) ==> Tidy(Add(loot, item, amount))
  {
  }

  /** Rows within the ranges they are loaded with: chances up to certainty and 8-bit counts. */
  predicate Loaded(row: Row) { row.chance <= BASIS_POINTS && row.minimum <= 255 && row.maximum <= 255 }

  lemma LoadedDoesNotWrap(row: Row, child: uint32)
    requires Loaded(row)
    ensures row.Scaled(child) == child * row.chance * row.maximum / BASIS_POINTS
  {
    Products(child, row.chance, MAX_UINT32, BASIS_POINTS);
    Products(child * row.chance, row.maximum, MAX_UINT32 * BASIS_POINTS, 255);
    SmallStays(child * row.chance * row.maximum);
  }

  lemma SmallStays(n: nat)
    requires n <= MAX_UINT32 * BASIS_POINTS * 255
    ensures n % WORD == n
  {
  }

  lemma Products(a: nat, b: nat, c: nat, d: nat)
    requires a <= c && b <= d
    ensures a * b <= c * d
  {
  }

  /** A row of an item counts for what it is sure to yield: no more than any count it may give, and as much as
      the smallest. */
  lemma DirectIsConservative(row: Row, count: nat)
    requires row.minimum <= count <= row.maximum
    ensures row.Direct() <= row.chance * count
    ensures count == row.minimum ==> row.Direct() == row.chance * count
  {
    Products(row.chance, row.minimum, row.chance, count);
  }

  /** A reference names a table by its magnitude: the same one with either sign, and never none. */
  lemma SignDoesNotMatter(row: Row)
    requires row.Refers()
    ensures row.Target() > 0 && (row.reference == row.Target() || row.reference + row.Target() == 0)
  {
  }

  // ----- the definition without a memo

  type Tables = map<uint32, seq<Row>>

  /** No chain of references leads back to where it started. */
  ghost predicate Acyclic(tables: Tables, rank: uint32 -> nat)
  {
    forall id, k | id in tables && 0 <= k < |tables[id]| && tables[id][k].Refers() && tables[id][k].Target() in tables ::
      rank(tables[id][k].Target()) < rank(id)
  }

  function Height(tables: Tables, rank: uint32 -> nat, id: uint32): nat
  {
    if id in tables then rank(id) + 1 else 0
  }

  /** What one row adds of an item, given what the table it refers to loot of it. */
  function Part(row: Row, item: uint32, nested: uint32): nat
  {
    if row.Refers() then row.Scaled(nested) else if row.item == item then row.Direct() else 0
  }

  /** What a reference table loot of an item: the saturated sum over its rows. */
  function Yield(tables: Tables, rank: uint32 -> nat, id: uint32, item: uint32): uint32
    requires Acyclic(tables, rank)
    decreases Height(tables, rank, id), 0, 0
  {
    if id == 0 || id !in tables || item == 0 then 0 else Bounded(YieldSum(tables, rank, id, |tables[id]|, item))
  }

  function YieldSum(tables: Tables, rank: uint32 -> nat, id: uint32, n: nat, item: uint32): nat
    requires Acyclic(tables, rank) && id in tables && n <= |tables[id]|
    decreases rank(id), 1, n
  {
    if n == 0 then 0
    else
      var row := tables[id][n - 1];
      YieldSum(tables, rank, id, n - 1, item) +
      Part(row, item, if row.Refers() then Yield(tables, rank, row.Target(), item) else 0)
  }

  /** A table of yields that agrees with the definition on every item. */
  ghost predicate Tells(loot: Yields, tables: Tables, rank: uint32 -> nat, id: uint32)
    requires Acyclic(tables, rank)
  {
    Tidy(loot) && forall item :: At(loot, item) == Yield(tables, rank, id, item)
  }

  /** Yields that agree with the definition on the first n rows of a table. */
  ghost predicate TellsRows(loot: Yields, tables: Tables, rank: uint32 -> nat, id: uint32, n: nat)
    requires Acyclic(tables, rank) && id in tables && n <= |tables[id]|
  {
    forall item | item != 0 :: At(loot, item) == Bounded(YieldSum(tables, rank, id, n, item))
  }

  /** `after` is `before` with what a row adds, given the yields of what it refers to. */
  ghost predicate RowAdded(before: Yields, row: Row, nested: Yields, after: Yields)
  {
    Tidy(after) && forall item | item != 0 :: At(after, item) == Saturated(At(before, item), Part(row, item, At(nested, item)))
  }

  lemma RowTold(before: Yields, after: Yields, nested: Yields, tables: Tables, rank: uint32 -> nat, id: uint32, n: nat)
    requires Acyclic(tables, rank) && id in tables && n < |tables[id]| && TellsRows(before, tables, rank, id, n)
    requires RowAdded(before, tables[id][n], nested, after)
    requires tables[id][n].Refers() ==> Tells(nested, tables, rank, tables[id][n].Target())
    ensures TellsRows(after, tables, rank, id, n + 1)
  {
    hide Part;
    forall item | item != 0
      ensures At(after, item) == Bounded(YieldSum(tables, rank, id, n + 1, item))
    {
      var row := tables[id][n];
      var told := if row.Refers() then Yield(tables, rank, row.Target(), item) else 0;
      DirectIgnoresNested(row, item, At(nested, item));
      assert Part(row, item, At(nested, item)) == Part(row, item, told);
    }
  }

  lemma DirectIgnoresNested(row: Row, item: uint32, nested: uint32)
    ensures !row.Refers() ==> Part(row, item, nested) == Part(row, item, 0)
  {
  }

  // ----- the resolver

  /** Adds what a reference row passes on of the yields it refers to, item by item. */
  method AddReferred(loot: Yields, row: Row, nested: Yields) returns (r: Yields)
    requires Tidy(loot) && Tidy(nested) && row.Refers()
    ensures RowAdded(loot, row, nested, r)
    ensures nested == map[] ==> r == loot
  {
    hide Row.Scaled;
    r := loot;
    var todo := nested.Keys;
    while todo != {}
      invariant todo <= nested.Keys && Tidy(r) && (nested == map[] ==> r == loot)
      invariant forall item | item != 0 ::
                  At(r, item) == if item in nested && item !in todo then Saturated(At(loot, item), row.Scaled(nested[item])) else At(loot, item)
    {
      var item :| item in todo;
      todo := todo - {item};
      forall other
        ensures At(Add(r, item, row.Scaled(nested[item])), other) ==
                if other == item && item != 0 then Saturated(At(r, item), row.Scaled(nested[item])) else At(r, other)
      {
        AddAt(r, item, row.Scaled(nested[item]), other);
      }
      AddAt(r, item, row.Scaled(nested[item]), 0);
      r := Add(r, item, row.Scaled(nested[item]));
    }
    NothingOfTheRest(loot, row, nested, r);
  }

  lemma NothingOfTheRest(loot: Yields, row: Row, nested: Yields, r: Yields)
    requires Tidy(r) && row.Refers()
    requires forall item | item != 0 ::
               At(r, item) == if item in nested then Saturated(At(loot, item), row.Scaled(nested[item])) else At(loot, item)
    ensures RowAdded(loot, row, nested, r)
  {
    assert row.Scaled(0) == 0;
  }

  method AddDirect(loot: Yields, row: Row) returns (r: Yields)
    requires Tidy(loot) && !row.Refers()
    ensures forall nested :: RowAdded(loot, row, nested, r)
  {
    hide Row.Direct;
    r := Add(loot, row.item, row.Direct());
    forall other
      ensures At(r, other) == if other == row.item && row.item != 0 then Saturated(At(loot, row.item), row.Direct()) else At(loot, other)
    {
      AddAt(loot, row.item, row.Direct(), other);
    }
    AddAt(loot, row.item, row.Direct(), 0);
  }

  class Resolver {
    const tables: Tables
    var memo: map<uint32, Yields>
    var resolving: set<uint32>

    constructor (tables: Tables)
      ensures this.tables == tables && memo == map[] && resolving == {}
    {
      this.tables := tables;
      memo, resolving := map[], {};
    }

    ghost predicate Tame()
      reads `memo
    {
      forall id | id in memo :: Tidy(memo[id])
    }

    /** What has been resolved agrees with the definition. */
    ghost predicate Knows(rank: uint32 -> nat)
      reads `memo
    {
      Acyclic(tables, rank) && forall id | id in memo :: Tells(memo[id], tables, rank, id)
    }

    /** Nothing in progress can be reached from the reference. */
    ghost predicate Clear(id: uint32, rank: uint32 -> nat)
      reads `resolving
    {
      forall x | x in resolving :: x in tables && (id in tables ==> rank(id) < rank(x))
    }

    /** Ends on every reference graph, however cyclic. On an acyclic one the answer is the definition's,
        whatever was resolved before. */
    method Resolve(id: uint32, ghost rank: uint32 -> nat) returns (loot: Yields)
      requires Tame()
      modifies this
      ensures resolving == old(resolving) && Tame() && Tidy(loot)
      ensures old(Knows(rank)) && old(Clear(id, rank)) ==> Knows(rank) && Tells(loot, tables, rank, id)
      decreases |tables.Keys - resolving|, 1
    {
      hide Tidy, Tells, Acyclic;
      NoLoot();
      if id in memo {
        return memo[id];
      }
      if id == 0 || id in resolving {
        loot := map[];
        if Knows(rank) && Clear(id, rank) {
          NothingOfNone(tables, rank);
        }
        return;
      }
      loot := ResolveAnew(id, rank);
    }

    /** Resolves a table that is neither known nor under way, and remembers the answer. */
    method ResolveAnew(id: uint32, ghost rank: uint32 -> nat) returns (loot: Yields)
      requires Tame() && id != 0 && id !in resolving
      modifies this
      ensures resolving == old(resolving) && Tame() && Tidy(loot)
      ensures old(Knows(rank)) && old(Clear(id, rank)) ==> Knows(rank) && Tells(loot, tables, rank, id)
      decreases |tables.Keys - resolving|, 0
    {
      hide Tidy, RowAdded, Tells, TellsRows, Acyclic;
      NoLoot();
      loot := map[];
      ghost var sound := Knows(rank) && Clear(id, rank);
      resolving := resolving + {id};
      if id in tables {
        FewerLeft(tables.Keys - resolving, tables.Keys - old(resolving), id);
        loot := ResolveRows(id, rank, sound);
      }
      if sound {
        ToldWhole(loot, tables, rank, id);
      }
      resolving := resolving - {id};
      Remember(id, loot, rank);
    }

    method Remember(id: uint32, loot: Yields, ghost rank: uint32 -> nat)
      requires Tame() && Tidy(loot)
      modifies `memo
      ensures memo == old(memo)[id := loot] && Tame()
      ensures old(Knows(rank)) && Tells(loot, tables, rank, id) ==> Knows(rank)
    {
      hide Tidy, Tells, Acyclic;
      memo := memo[id := loot];
    }

    method ResolveRows(id: uint32, ghost rank: uint32 -> nat, ghost sound: bool) returns (loot: Yields)
      requires Tame() && id in tables && id in resolving
      requires sound ==> Knows(rank) && forall x | x in resolving :: x in tables && (x == id || rank(id) < rank(x))
      modifies this
      ensures resolving == old(resolving) && Tame() && Tidy(loot)
      ensures sound ==> Knows(rank) && TellsRows(loot, tables, rank, id, |tables[id]|)
      decreases |tables.Keys - resolving|, 2
    {
      hide Tidy, RowAdded, TellsRows, Tells;
      loot := map[];
      NoLoot();
      if sound {
        NothingToldYet(tables, rank, id);
      }
      var rows := tables[id];
      for n := 0 to |rows|
        invariant resolving == old(resolving) && Tame() && Tidy(loot)
        invariant sound ==> Knows(rank) && TellsRows(loot, tables, rank, id, n)
      {
        var row := rows[n];
        var before, nested: Yields := loot, map[];
        if !row.Refers() {
          loot := AddDirect(loot, row);
        } else {
          nested := Resolve(row.Target(), rank);
          loot := AddReferred(loot, row, nested);
        }
        AddedIsTidy(before, row, nested, loot);
        if sound {
          RowTold(before, loot, nested, tables, rank, id, n);
        }
      }
    }
  }

  lemma FewerLeft(a: set<uint32>, b: set<uint32>, x: uint32)
    requires a == b - {x} && x in b
    ensures |a| < |b|
  {
  }

  lemma NothingOfNone(tables: Tables, rank: uint32 -> nat)
    requires Acyclic(tables, rank)
    ensures Tells(map[], tables, rank, 0)
  {
  }

  lemma ToldWhole(loot: Yields, tables: Tables, rank: uint32 -> nat, id: uint32)
    requires Acyclic(tables, rank) && Tidy(loot) && id != 0
    requires if id in tables then TellsRows(loot, tables, rank, id, |tables[id]|) else loot == map[]
    ensures Tells(loot, tables, rank, id)
  {
  }

  lemma NoLoot()
    ensures Tidy(map[]) && forall item :: At(map[], item) == 0
  {
  }

  lemma AddedIsTidy(before: Yields, row: Row, nested: Yields, after: Yields)
    requires RowAdded(before, row, nested, after)
    ensures Tidy(after)
  {
  }

  lemma NothingToldYet(tables: Tables, rank: uint32 -> nat, id: uint32)
    requires Acyclic(tables, rank) && id in tables
    ensures TellsRows(map[], tables, rank, id, 0)
  {
  }

  // ----- equal-chanced groups

  datatype GroupKey = GroupKey(lootId: uint32, group: uint32)

  predicate InGroup(row: Row, key: GroupKey) { row.lootId == key.lootId && row.group == key.group }

  predicate EqualChanced(row: Row) { row.group != 0 && row.chance == 0 }

  /** The explicit chances of a group, summed in 32 bits and cut to certainty at every step. */
  function ExplicitChance(rows: seq<Row>, key: GroupKey): (r: uint32)
    ensures r <= BASIS_POINTS
  {
    if rows == [] then 0
    else
      var last := rows[|rows| - 1];
      var before := ExplicitChance(rows[..|rows| - 1], key);
      if InGroup(last, key) && last.group != 0 && last.chance != 0 then Min(BASIS_POINTS, (before + last.chance) % 0x1_0000_0000) else before
  }

  function EqualCount(rows: seq<Row>, key: GroupKey): nat
  {
    if rows == [] then 0
    else EqualCount(rows[..|rows| - 1], key) + if InGroup(rows[|rows| - 1], key) && EqualChanced(rows[|rows| - 1]) then 1 else 0
  }

  /** What the explicit chances leave, shared evenly and rounded down. */
  function EqualShare(rows: seq<Row>, key: GroupKey): uint32
  {
    var count := EqualCount(rows, key);
    if count == 0 then 0 else (BASIS_POINTS - ExplicitChance(rows, key)) / count
  }

  function NormalizedRow(rows: seq<Row>, row: Row): Row
  {
    if EqualChanced(row) then row.(chance := EqualShare(rows, GroupKey(row.lootId, row.group))) else row
  }

  function Normalized(rows: seq<Row>): seq<Row>
  {
    seq(|rows|, i requires 0 <= i < |rows| => NormalizedRow(rows, rows[i]))
  }

  lemma GroupNext(rows: seq<Row>, i: nat, key: GroupKey)
    requires i < |rows|
    ensures var hit := InGroup(rows[i], key);
            && ExplicitChance(rows[..i + 1], key) ==
                 (if hit && rows[i].group != 0 && rows[i].chance != 0
                  then Min(BASIS_POINTS, (ExplicitChance(rows[..i], key) + rows[i].chance) % 0x1_0000_0000)
                  else ExplicitChance(rows[..i], key))
            && EqualCount(rows[..i + 1], key) == EqualCount(rows[..i], key) + if hit && EqualChanced(rows[i]) then 1 else 0
  {
    assert rows[..i + 1][..i] == rows[..i];
  }

  lemma NoGroups(rows: seq<Row>)
    ensures forall key :: ExplicitChance(rows[..0], key) == 0 && EqualCount(rows[..0], key) == 0
  {
  }

  /** The explicit chances and the number of equal-chanced rows per group. */
  method CountGroups(rows: seq<Row>) returns (certain: map<GroupKey, uint32>, equal: map<GroupKey, nat>)
    ensures forall key: GroupKey | key.group != 0 :: (if key in certain then certain[key] else 0) == ExplicitChance(rows, key)
    ensures forall key: GroupKey | key.group != 0 :: (if key in equal then equal[key] else 0) == EqualCount(rows, key)
  {
    hide ExplicitChance, EqualCount;
    certain, equal := map[], map[];
    NoGroups(rows);
    for i := 0 to |rows|
      invariant forall key: GroupKey | key.group != 0 :: (if key in certain then certain[key] else 0) == ExplicitChance(rows[..i], key)
      invariant forall key: GroupKey | key.group != 0 :: (if key in equal then equal[key] else 0) == EqualCount(rows[..i], key)
    {
      forall key
        ensures ExplicitChance(rows[..i + 1], key) ==
                (if InGroup(rows[i], key) && rows[i].group != 0 && rows[i].chance != 0
                 then Min(BASIS_POINTS, (ExplicitChance(rows[..i], key) + rows[i].chance) % 0x1_0000_0000)
                 else ExplicitChance(rows[..i], key))
        ensures EqualCount(rows[..i + 1], key) ==
                EqualCount(rows[..i], key) + if InGroup(rows[i], key) && EqualChanced(rows[i]) then 1 else 0
      {
        GroupNext(rows, i, key);
      }
      var row := rows[i];
      var key := GroupKey(row.lootId, row.group);
      if row.group != 0 && row.chance != 0 {
        var before := if key in certain then certain[key] else 0;
        certain := certain[key := Min(BASIS_POINTS, (before + row.chance) % 0x1_0000_0000)];
      } else if row.group != 0 {
        equal := equal[key := (if key in equal then equal[key] else 0) + 1];
      }
    }
    assert rows[..|rows|] == rows;
  }

  method Normalize(input: seq<Row>) returns (rows: seq<Row>)
    ensures rows == Normalized(input)
  {
    hide ExplicitChance, EqualCount;
    var certain, equal := CountGroups(input);
    rows := input;
    for i := 0 to |rows|
      invariant |rows| == |input|
      invariant forall j | 0 <= j < i :: rows[j] == NormalizedRow(input, input[j])
      invariant forall j | i <= j < |rows| :: rows[j] == input[j]
    {
      var row := rows[i];
      if row.group != 0 && row.chance == 0 {
        var key := GroupKey(row.lootId, row.group);
        var count := if key in equal then equal[key] else 0;
        var chance := if count == 0 then 0 else (BASIS_POINTS - if key in certain then certain[key] else 0) / count;
        rows := rows[i := row.(chance := chance)];
      }
    }
  }

  /** Normalizing gives the equal-chanced rows of a group one chance, and changes nothing else. */
  lemma OnlyEqualChancesAreSet(rows: seq<Row>, i: nat, j: nat)
    requires i < |rows| && j < |rows|
    ensures var after := Normalized(rows);
            && |after| == |rows| && after[i] == rows[i].(chance := after[i].chance)
            && (rows[i].group == 0 || rows[i].chance != 0 ==> after[i] == rows[i])
            && (rows[i].group == rows[j].group != 0 && rows[i].lootId == rows[j].lootId && rows[i].chance == rows[j].chance == 0 ==>
                  after[i].chance == after[j].chance)
  {
    hide EqualShare;
  }

  /** The normalized chances of a group's equal-chanced rows. */
  function SharedChance(rows: seq<Row>, all: seq<Row>, key: GroupKey): nat
  {
    if rows == [] then 0
    else
      var last := rows[|rows| - 1];
      SharedChance(rows[..|rows| - 1], all, key) +
      if InGroup(last, key) && EqualChanced(last) then NormalizedRow(all, last).chance else 0
  }

  lemma {:induction false} SharesAreEqual(rows: seq<Row>, all: seq<Row>, key: GroupKey)
    ensures SharedChance(rows, all, key) == EqualCount(rows, key) * EqualShare(all, key)
  {
    if rows == [] {
    } else {
      SharesAreEqual(rows[..|rows| - 1], all, key);
      hide EqualShare;
      OneMore(EqualCount(rows[..|rows| - 1], key), EqualShare(all, key));
    }
  }

  lemma OneMore(n: nat, share: nat)
    ensures (n + 1) * share == n * share + share
  {
  }

  lemma Shared(total: nat, count: nat)
    requires count > 0
    ensures count * (total / count) <= total < count * (total / count) + count
  {
    assert total == total / count * count + total % count;
  }

  /** Together with the explicit ones the shared chances stay within certainty, and fall short of it by
      less than a basis point per row. */
  lemma GroupsStayWithinCertainty(rows: seq<Row>, key: GroupKey)
    ensures ExplicitChance(rows, key) + SharedChance(rows, rows, key) <= BASIS_POINTS
    ensures EqualCount(rows, key) > 0 ==>
              ExplicitChance(rows, key) + SharedChance(rows, rows, key) + EqualCount(rows, key) > BASIS_POINTS
  {
    SharesAreEqual(rows, rows, key);
    if EqualCount(rows, key) > 0 {
      Shared(BASIS_POINTS - ExplicitChance(rows, key), EqualCount(rows, key));
    }
  }

  // ----- all sources

  function RowsOf(rows: seq<Row>, id: uint32): seq<Row>
  {
    if rows == [] then []
    else RowsOf(rows[..|rows| - 1], id) + if rows[|rows| - 1].lootId == id then [rows[|rows| - 1]] else []
  }

  function TablesOf(rows: seq<Row>): Tables
  {
    map id | id in (set row | row in rows :: row.lootId) :: RowsOf(rows, id)
  }

  lemma RowsOfNext(rows: seq<Row>, i: nat, id: uint32)
    requires i < |rows|
    ensures RowsOf(rows[..i + 1], id) == RowsOf(rows[..i], id) + if rows[i].lootId == id then [rows[i]] else []
  {
    assert rows[..i + 1][..i] == rows[..i];
  }

  lemma {:induction false} RowsOfMentioned(rows: seq<Row>, id: uint32)
    ensures RowsOf(rows, id) != [] <==> id in set row | row in rows :: row.lootId
  {
    if rows == [] {
    } else {
      RowsOfMentioned(rows[..|rows| - 1], id);
      assert forall row :: row in rows <==> row in rows[..|rows| - 1] || row == rows[|rows| - 1];
    }
  }

  /** The table of an id holds its rows; ids without rows have none. */
  predicate TableOf(tables: Tables, rows: seq<Row>, id: uint32)
  {
    if RowsOf(rows, id) == [] then id !in tables else id in tables && tables[id] == RowsOf(rows, id)
  }

  method Tabulate(rows: seq<Row>) returns (tables: Tables)
    ensures tables == TablesOf(rows)
  {
    hide RowsOf, TableOf;
    tables := map[];
    NoTables(rows);
    for i := 0 to |rows|
      invariant forall id :: TableOf(tables, rows[..i], id)
    {
      ghost var before := tables;
      var row := rows[i];
      tables := tables[row.lootId := (if row.lootId in tables then tables[row.lootId] else []) + [row]];
      ghost var after, seen := tables, rows[..i + 1];
      forall id
        ensures TableOf(after, seen, id)
      {
        TableNext(before, rows, i, id);
      }
    }
    assert rows[..|rows|] == rows;
    AllTables(tables, rows);
  }

  lemma NoTables(rows: seq<Row>)
    ensures forall id :: TableOf(map[], rows[..0], id)
  {
  }

  lemma TableNext(tables: Tables, rows: seq<Row>, i: nat, id: uint32)
    requires i < |rows| && TableOf(tables, rows[..i], id) && TableOf(tables, rows[..i], rows[i].lootId)
    ensures var row := rows[i];
            TableOf(tables[row.lootId := (if row.lootId in tables then tables[row.lootId] else []) + [row]], rows[..i + 1], id)
  {
    RowsOfNext(rows, i, id);
    hide RowsOf;
  }

  lemma AllTables(tables: Tables, rows: seq<Row>)
    requires forall id :: TableOf(tables, rows, id)
    ensures tables == TablesOf(rows)
  {
    hide RowsOf;
    forall id
      ensures id in tables <==> id in TablesOf(rows)
      ensures id in tables ==> tables[id] == TablesOf(rows)[id]
    {
      RowsOfMentioned(rows, id);
      assert TableOf(tables, rows, id);
    }
  }

  /** What the first n rows of a source yield of an item. */
  function SourceSum(rows: seq<Row>, n: nat, tables: Tables, rank: uint32 -> nat, item: uint32): nat
    requires Acyclic(tables, rank) && n <= |rows|
  {
    if n == 0 then 0
    else
      SourceSum(rows, n - 1, tables, rank, item) +
      Part(rows[n - 1], item, if rows[n - 1].Refers() then Yield(tables, rank, rows[n - 1].Target(), item) else 0)
  }

  ghost predicate SourceTold(loot: Yields, rows: seq<Row>, n: nat, tables: Tables, rank: uint32 -> nat)
    requires Acyclic(tables, rank) && n <= |rows|
  {
    Tidy(loot) && forall item | item != 0 :: At(loot, item) == Bounded(SourceSum(rows, n, tables, rank, item))
  }

  lemma SourceRowTold(before: Yields, after: Yields, nested: Yields, rows: seq<Row>, n: nat, tables: Tables, rank: uint32 -> nat)
    requires Acyclic(tables, rank) && n < |rows| && SourceTold(before, rows, n, tables, rank)
    requires RowAdded(before, rows[n], nested, after)
    requires rows[n].Refers() ==> Tells(nested, tables, rank, rows[n].Target())
    ensures SourceTold(after, rows, n + 1, tables, rank)
  {
    hide Part;
    forall item | item != 0
      ensures At(after, item) == Bounded(SourceSum(rows, n + 1, tables, rank, item))
    {
      var told := if rows[n].Refers() then Yield(tables, rank, rows[n].Target(), item) else 0;
      DirectIgnoresNested(rows[n], item, At(nested, item));
      assert Part(rows[n], item, At(nested, item)) == Part(rows[n], item, told);
    }
  }

  /** The yields of one source, and whether any row put in an entry for it. */
  method ResolveSource(resolver: Resolver, rows: seq<Row>, ghost rank: uint32 -> nat) returns (loot: Yields, entered: bool)
    requires resolver.Tame() && resolver.resolving == {}
    modifies resolver
    ensures resolver.Tame() && resolver.resolving == {} && Tidy(loot) && (!entered ==> loot == map[])
    ensures old(resolver.Knows(rank)) ==> resolver.Knows(rank) && SourceTold(loot, rows, |rows|, resolver.tables, rank)
  {
    hide Tidy, RowAdded, SourceTold, Tells;
    loot, entered := map[], false;
    NoLoot();
    ghost var sound := resolver.Knows(rank);
    if sound {
      NoSourceYet(rows, resolver.tables, rank);
    }
    for n := 0 to |rows|
      invariant resolver.Tame() && resolver.resolving == {} && Tidy(loot) && (!entered ==> loot == map[])
      invariant sound ==> resolver.Knows(rank) && SourceTold(loot, rows, n, resolver.tables, rank)
    {
      var row := rows[n];
      var before, nested: Yields := loot, map[];
      if !row.Refers() {
        loot := AddDirect(loot, row);
        entered := true;
      } else {
        nested := resolver.Resolve(row.Target(), rank);
        loot := AddReferred(loot, row, nested);
        entered := entered || nested != map[];
      }
      AddedIsTidy(before, row, nested, loot);
      if sound {
        SourceRowTold(before, loot, nested, rows, n, resolver.tables, rank);
      }
    }
  }

  lemma NoSourceYet(rows: seq<Row>, tables: Tables, rank: uint32 -> nat)
    requires Acyclic(tables, rank)
    ensures SourceTold(map[], rows, 0, tables, rank)
  {
  }

  function LootOf(result: map<uint32, Yields>, id: uint32): Yields
  {
    if id in result then result[id] else map[]
  }

  /** Resolves every source. The sources come in no particular order, and one memo serves them all; on
      an acyclic reference graph each source still yields exactly the saturated sum of its rows. */
  method ResolveAll(sourceRows: seq<Row>, referenceRows: seq<Row>, ghost rank: uint32 -> nat) returns (result: map<uint32, Yields>)
    ensures var sources, tables := TablesOf(Normalized(sourceRows)), TablesOf(Normalized(referenceRows));
            && result.Keys <= sources.Keys
            && (Acyclic(tables, rank) ==>
                  forall id | id in sources :: SourceTold(LootOf(result, id), sources[id], |sources[id]|, tables, rank))
  {
    hide TablesOf, Normalized, SourceTold;
    var normalizedSources := Normalize(sourceRows);
    var normalizedReferences := Normalize(referenceRows);
    var sources := Tabulate(normalizedSources);
    var tables := Tabulate(normalizedReferences);
    var resolver := new Resolver(tables);
    result := map[];
    var todo := sources.Keys;
    while todo != {}
      invariant todo <= sources.Keys && result.Keys <= sources.Keys - todo
      invariant resolver.tables == tables && resolver.Tame() && resolver.resolving == {} && fresh(resolver)
      invariant Acyclic(tables, rank) ==> resolver.Knows(rank)
      invariant Acyclic(tables, rank) ==>
                  forall id | id in sources && id !in todo :: SourceTold(LootOf(result, id), sources[id], |sources[id]|, tables, rank)
    {
      var id :| id in todo;
      todo := todo - {id};
      var loot, entered := ResolveSource(resolver, sources[id], rank);
      if entered {
        result := result[id := loot];
      }
    }
  }
}
