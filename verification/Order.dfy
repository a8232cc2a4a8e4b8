/** The iteration order of the ordered maps: ascending character guids and ascending gap keys. */
module Order {
  import opened Economy

  predicate Before(a: GapKey, b: GapKey)
  {
    if a.market != b.market then a.market < b.market
    else if a.group.kind != b.group.kind then a.group.kind.Ordinal() < b.group.kind.Ordinal()
    else if a.group.head != b.group.head then a.group.head < b.group.head
    else if a.group.effectFamily != b.group.effectFamily then a.group.effectFamily < b.group.effectFamily
    else a.group.tail < b.group.tail
  }

  predicate FirstKey(k: GapKey, keys: set<GapKey>)
  {
    k in keys && forall other | other in keys :: other == k || Before(k, other)
  }

  lemma {:induction false} FirstKeyExists(keys: set<GapKey>)
    requires keys != {}
    ensures exists k :: k in keys && FirstKey(k, keys)
  {
    var any :| any in keys;
    var rest := keys - {any};
    if rest == {} {
      assert forall other | other in keys :: other == any || other in rest;
      assert FirstKey(any, keys);
    } else {
      FirstKeyExists(rest);
      var k :| k in rest && FirstKey(k, rest);
      assert forall other | other in keys :: other == any || other in rest;
      if Before(k, any) {
        assert FirstKey(k, keys);
      } else {
        assert FirstKey(any, keys);
      }
    }
  }

  /** The keys of a map, in the order its iterator visits them. */
  ghost function AscendingKeys(keys: set<GapKey>): (order: seq<GapKey>)
    ensures forall k :: k in order <==> k in keys
  {
    if keys == {} then []
    else
      FirstKeyExists(keys);
      var k :| FirstKey(k, keys);
      [k] + AscendingKeys(keys - {k})
  }

  lemma {:induction false} AscendingKeysSorted(keys: set<GapKey>)
    ensures forall i, j | 0 <= i < j < |AscendingKeys(keys)| :: Before(AscendingKeys(keys)[i], AscendingKeys(keys)[j])
  {
    if keys == {} {
    } else {
      hide AscendingKeys, Before;
      FirstKeyExists(keys);
      var k :| FirstKey(k, keys);
      AscendingKeysStartsWith(k, keys);
      var rest := AscendingKeys(keys - {k});
      AscendingKeysSorted(keys - {k});
      forall i, j | 0 <= i < j <= |rest|
        ensures Before(([k] + rest)[i], ([k] + rest)[j])
      {
        assert rest[j - 1] in keys - {k};
      }
    }
  }

  lemma NothingLeft(visited: seq<GapKey>)
    ensures visited + AscendingKeys({}) == visited
  {
  }

  /** Visiting keys in ascending order: the first key left moves to the end of those visited. */
  lemma VisitFirst(visited: seq<GapKey>, k: GapKey, keys: set<GapKey>)
    requires FirstKey(k, keys)
    ensures visited + AscendingKeys(keys) == (visited + [k]) + AscendingKeys(keys - {k})
  {
    AscendingKeysStartsWith(k, keys);
  }

  lemma AscendingKeysStartsWith(k: GapKey, keys: set<GapKey>)
    requires FirstKey(k, keys)
    ensures AscendingKeys(keys) == [k] + AscendingKeys(keys - {k})
  {
  }

  predicate FirstGuid(g: uint32, guids: set<uint32>)
  {
    g in guids && forall other | other in guids :: g <= other
  }

  lemma {:induction false} FirstGuidExists(guids: set<uint32>)
    requires guids != {}
    ensures exists g :: FirstGuid(g, guids)
  {
    var any :| any in guids;
    var rest := guids - {any};
    if rest == {} {
      assert forall other | other in guids :: other == any || other in rest;
      assert FirstGuid(any, guids);
    } else {
      FirstGuidExists(rest);
      var g :| FirstGuid(g, rest);
      assert forall other | other in guids :: other == any || other in rest;
      assert FirstGuid(if g <= any then g else any, guids);
    }
  }

  ghost function AscendingGuids(guids: set<uint32>): (order: seq<uint32>)
    ensures forall g :: g in order <==> g in guids
  {
    if guids == {} then []
    else
      FirstGuidExists(guids);
      var g :| FirstGuid(g, guids);
      [g] + AscendingGuids(guids - {g})
  }

  lemma {:induction false} AscendingGuidsSorted(guids: set<uint32>)
    ensures forall i, j | 0 <= i < j < |AscendingGuids(guids)| :: AscendingGuids(guids)[i] < AscendingGuids(guids)[j]
  {
    if guids == {} {
    } else {
      hide AscendingGuids;
      FirstGuidExists(guids);
      var g :| FirstGuid(g, guids);
      AscendingGuidsStartsWith(g, guids);
      var rest := AscendingGuids(guids - {g});
      AscendingGuidsSorted(guids - {g});
      hide FirstGuid;
      forall i, j | 0 <= i < j <= |rest|
        ensures ([g] + rest)[i] < ([g] + rest)[j]
      {
        assert rest[j - 1] in guids - {g};
      }
    }
  }

  lemma NoGuidLeft(visited: seq<uint32>)
    ensures visited + AscendingGuids({}) == visited
  {
  }

  lemma VisitFirstGuid(visited: seq<uint32>, g: uint32, guids: set<uint32>)
    requires FirstGuid(g, guids)
    ensures visited + AscendingGuids(guids) == (visited + [g]) + AscendingGuids(guids - {g})
  {
    AscendingGuidsStartsWith(g, guids);
  }

  lemma AscendingGuidsStartsWith(g: uint32, guids: set<uint32>)
    requires FirstGuid(g, guids)
    ensures AscendingGuids(guids) == [g] + AscendingGuids(guids - {g})
  {
  }
}
