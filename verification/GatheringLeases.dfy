/**
 The lease table for gathering in the open world: one bot works on a resource at a time, one resource
 per bot, and the loot of a lease is confirmed at most once.
 */
module GatheringLeases {
  import opened Economy

  datatype Blocker =
    | NoBlocker
    | InvalidResource
    | AlreadyClaimed
    | MissingCareer
    | MissingSkill
    | WrongProfession
    | InsufficientSkill
    | AffinityTooLow
    | NotGrouped
    | WrongMap
    | WrongPhase
    | MissingPath
    | OutOfRange
    | Unsafe
    | Committed
    | NoCandidate
    | NotUseful
    | InventoryFull

  datatype Cause =
    | NoCause
    | Combat
    | Transport
    | CommandReplacement
    | PathFailure
    | MapChanged
    | PhaseChanged
    | FormationMoved
    | Despawned
    | HigherPriorityBehavior
    | Success
    | Expired
    | Disabled

  datatype State = Leased | Released | Completed

  datatype Resource = Resource(guid: nat, profession: nat, mapId: uint32, phaseMask: uint32, requiredSkill: uint32, spawned: bool)

  /** A bot that might take a resource. `verdict` is what skill, career, range and safety say. */
  datatype Candidate = Candidate(guid: uint32, verdict: Blocker, botDistance: real, formationDistance: real, direct: bool)

  datatype Claim = Claim(leaseId: nat, resource: Resource, actor: uint32, expiresAt: nat, direct: bool, state: State, cause: Cause)

  datatype Observation = Observation(claim: Claim, starting: map<uint32, uint32>)

  datatype ClaimResult = Claimed(claim: Claim) | Blocked(blocker: Blocker)

  datatype Confirmed = Confirmed(leaseId: nat, resource: nat, actor: uint32, item: uint32, quantity: uint32)

  // ----- the table as a value

  predicate IdsOk(claims: seq<Claim>, nextLeaseId: nat)
  {
    && (forall i | 0 <= i < |claims| :: claims[i].leaseId < nextLeaseId)
    && (forall i, j | 0 <= i < j < |claims| :: claims[i].leaseId != claims[j].leaseId)
  }

  /** At most one lease per resource and per actor. */
  predicate Exclusive(claims: seq<Claim>)
  {
    forall i, j | 0 <= i < j < |claims| && claims[i].state.Leased? && claims[j].state.Leased? ::
      claims[i].resource.guid != claims[j].resource.guid && claims[i].actor != claims[j].actor
  }

  /** A claim that has been settled stays settled, and nothing else about a claim ever changes. */
  predicate Settling(c: Claim, d: Claim)
  {
    d == c || (c.state.Leased? && !d.state.Leased? && d == c.(state := d.state, cause := d.cause))
  }

  predicate Later(before: seq<Claim>, after: seq<Claim>)
  {
    |before| <= |after| && forall i | 0 <= i < |before| :: Settling(before[i], after[i])
  }

  lemma LaterKeepsExclusive(before: seq<Claim>, after: seq<Claim>, nextLeaseId: nat)
    requires |before| == |after| && Later(before, after) && Exclusive(before) && IdsOk(before, nextLeaseId)
    ensures Exclusive(after) && IdsOk(after, nextLeaseId)
  {
  }

  predicate LeasedAs(claims: seq<Claim>, o: Claim)
  {
    exists i :: 0 <= i < |claims| && claims[i] == o && o.state.Leased?
  }

  /** At most one observation per actor, each of a claim that is still leased. */
  predicate ObservationsOk(observations: seq<Observation>, claims: seq<Claim>)
  {
    && (forall i | 0 <= i < |observations| :: LeasedAs(claims, observations[i].claim))
    && (forall i, j | 0 <= i < j < |observations| :: observations[i].claim.actor != observations[j].claim.actor)
  }

  function Filter(s: seq<Observation>, keep: Observation -> bool): (r: seq<Observation>)
    ensures forall o :: o in r <==> o in s && keep(o)
  {
    if s == [] then []
    else
      var last := s[|s| - 1];
      assert forall o :: o in s <==> o in s[..|s| - 1] || o == last;
      Filter(s[..|s| - 1], keep) + if keep(last) then [last] else []
  }

  lemma {:induction false} FilterKeepsDistinct(s: seq<Observation>, keep: Observation -> bool)
    requires forall i, j | 0 <= i < j < |s| :: s[i].claim.actor != s[j].claim.actor
    ensures forall i, j | 0 <= i < j < |Filter(s, keep)| :: Filter(s, keep)[i].claim.actor != Filter(s, keep)[j].claim.actor
  {
    if s == [] {
    } else {
      var n := |s| - 1;
      FilterKeepsDistinct(s[..n], keep);
      forall o | o in Filter(s[..n], keep)
        ensures o.claim.actor != s[n].claim.actor
      {
        var i :| 0 <= i < n && s[i] == o;
      }
    }
  }

  /** Dropping the observations of claims that are no longer leased. */
  lemma FilterKeepsOk(observations: seq<Observation>, before: seq<Claim>, after: seq<Claim>, keep: Observation -> bool)
    requires ObservationsOk(observations, before) && Later(before, after)
    requires forall o | o in observations && keep(o) :: LeasedAs(after, o.claim)
    ensures ObservationsOk(Filter(observations, keep), after)
  {
    FilterKeepsDistinct(observations, keep);
    var kept := Filter(observations, keep);
    forall i | 0 <= i < |kept|
      ensures LeasedAs(after, kept[i].claim)
    {
      assert kept[i] in kept;
    }
  }

  function IndexWhere(claims: seq<Claim>, wanted: Claim -> bool): (i: nat)
    ensures i <= |claims|
    ensures i < |claims| ==> wanted(claims[i])
    ensures forall j | 0 <= j < i :: !wanted(claims[j])
  {
    if claims == [] then 0
    else
      var n := |claims| - 1;
      var i := IndexWhere(claims[..n], wanted);
      if i < n then i else if wanted(claims[n]) then n else n + 1
  }

  function ExpiredClaim(c: Claim, now: nat): Claim
  {
    if c.state.Leased? && c.expiresAt <= now then c.(state := State.Released, cause := Expired) else c
  }

  function ExpiredClaims(claims: seq<Claim>, now: nat): seq<Claim>
  {
    seq(|claims|, i requires 0 <= i < |claims| => ExpiredClaim(claims[i], now))
  }

  function SettledBy(c: Claim, cause: Cause): Claim
  {
    c.(state := if cause.Success? then State.Completed else State.Released, cause := cause)
  }

  // ----- choosing a candidate

  predicate Busy(claims: seq<Claim>, actor: uint32, now: nat)
  {
    exists c | c in claims :: c.actor == actor && (c.state.Leased? || (c.state.Completed? && c.expiresAt > now))
  }

  /** A candidate that may take a resource: nothing speaks against it, it has no lease, and the time of none it
      has completed is still running. */
  predicate Free(claims: seq<Claim>, c: Candidate, now: nat)
  {
    c.verdict.NoBlocker? &&
    forall claim | claim in claims && claim.actor == c.guid ::
      !claim.state.Leased? && (claim.state.Completed? ==> claim.expiresAt <= now)
  }

  lemma FreeIsNotBusy(claims: seq<Claim>, c: Candidate, now: nat)
    ensures Free(claims, c, now) <==> c.verdict.NoBlocker? && !Busy(claims, c.guid, now)
  {
  }

  predicate Nearer(a: Candidate, b: Candidate)
  {
    || a.botDistance < b.botDistance
    || (a.botDistance == b.botDistance && a.formationDistance < b.formationDistance)
    || (a.botDistance == b.botDistance && a.formationDistance == b.formationDistance && a.guid < b.guid)
  }

  /** The candidate the resource goes to: of those that are free the nearest itself, of these the one nearest its
      place in the formation, of these the one with the lowest guid, and of these the first. */
  predicate Selected(claims: seq<Claim>, candidates: seq<Candidate>, now: nat, i: nat)
  {
    && i < |candidates| && Free(claims, candidates[i], now)
    && forall j | 0 <= j < |candidates| && Free(claims, candidates[j], now) ::
         var c, d := candidates[i], candidates[j];
         c.botDistance < d.botDistance || (c.botDistance == d.botDistance &&
         (c.formationDistance < d.formationDistance || (c.formationDistance == d.formationDistance &&
         (c.guid < d.guid || (c.guid == d.guid && i <= j)))))
  }

  /** The first verdict that says anything. */
  predicate FirstVerdict(candidates: seq<Candidate>, i: nat, blocker: Blocker)
  {
    && i < |candidates| && blocker == candidates[i].verdict && !blocker.NoCandidate?
    && forall j | 0 <= j < i :: candidates[j].verdict.NoCandidate?
  }

  /** Why nobody could take it: a fit bot was busy, or else what was wrong with the first. */
  ghost predicate Explains(blocker: Blocker, candidates: seq<Candidate>)
  {
    if exists c | c in candidates :: c.verdict.NoBlocker? then blocker == AlreadyClaimed
    else if forall c | c in candidates :: c.verdict.NoCandidate? then blocker == NoCandidate
    else exists i: nat :: FirstVerdict(candidates, i, blocker)
  }

  /** When an actor may take a resource again: at once if its lease was given up, whatever the cause, but after
      a success only when the time of the lease is up. */
  lemma FreeAgain(claims: seq<Claim>, i: nat, cause: Cause, c: Candidate, now: nat)
    requires Exclusive(claims) && i < |claims| && claims[i].state.Leased? && claims[i].actor == c.guid && c.verdict.NoBlocker?
    requires forall j | 0 <= j < |claims| && j != i && claims[j].actor == c.guid :: claims[j].state.Completed? ==> claims[j].expiresAt <= now
    ensures var after := claims[i := SettledBy(claims[i], cause)];
            Free(after, c, now) <==> !cause.Success? || claims[i].expiresAt <= now
  {
    var after := claims[i := SettledBy(claims[i], cause)];
    forall j | 0 <= j < |claims| && j != i && claims[j].actor == c.guid
      ensures !claims[j].state.Leased?
    {
      assert j < i || i < j;
    }
    assert after[i] in after;
  }

  /** Expiry ends exactly the leases whose time is up. */
  lemma ExpiryEndsLeases(claims: seq<Claim>, now: nat, i: nat)
    requires i < |claims|
    ensures var c, d := claims[i], ExpiredClaims(claims, now)[i];
            if c.state.Leased? && c.expiresAt <= now then d == c.(state := State.Released, cause := Expired) else d == c
  {
  }

  /** Each confirmation is of a different lease, and that lease is settled for good. */
  predicate ConfirmedOnce(confirmed: seq<Confirmed>, claims: seq<Claim>)
  {
    && (forall i, j | 0 <= i < j < |confirmed| :: confirmed[i].leaseId != confirmed[j].leaseId)
    && (forall i | 0 <= i < |confirmed| :: Completes(claims, confirmed[i].leaseId))
  }

  predicate Completes(claims: seq<Claim>, leaseId: nat)
  {
    exists k :: 0 <= k < |claims| && claims[k].leaseId == leaseId && claims[k].state.Completed?
  }

  lemma LaterKeepsConfirmed(confirmed: seq<Confirmed>, before: seq<Claim>, after: seq<Claim>)
    requires ConfirmedOnce(confirmed, before) && Later(before, after)
    ensures ConfirmedOnce(confirmed, after)
  {
    forall i | 0 <= i < |confirmed|
      ensures Completes(after, confirmed[i].leaseId)
    {
      assert Completes(before, confirmed[i].leaseId);
      var k :| 0 <= k < |before| && before[k].leaseId == confirmed[i].leaseId && before[k].state.Completed?;
      assert after[k] == before[k];
    }
  }

  /** Everything the table keeps to, in one predicate over its parts. */
  ghost predicate TableOk(claims: seq<Claim>, observations: seq<Observation>, nextLeaseId: nat, confirmed: seq<Confirmed>)
  {
    IdsOk(claims, nextLeaseId) && Exclusive(claims) && ObservationsOk(observations, claims) && ConfirmedOnce(confirmed, claims)
  }

  /** Settling claims keeps the table sound if exactly the observations of settled claims go. */
  lemma SettlingKeepsTable(before: seq<Claim>, after: seq<Claim>, observations: seq<Observation>, nextLeaseId: nat,
                           confirmed: seq<Confirmed>, keep: Observation -> bool)
    requires TableOk(before, observations, nextLeaseId, confirmed) && |before| == |after| && Later(before, after)
    requires forall o | o in observations && keep(o) :: LeasedAs(after, o.claim)
    ensures TableOk(after, Filter(observations, keep), nextLeaseId, confirmed)
  {
    hide IdsOk, Exclusive, ObservationsOk, ConfirmedOnce, Later;
    LaterKeepsExclusive(before, after, nextLeaseId);
    LaterKeepsConfirmed(confirmed, before, after);
    FilterKeepsOk(observations, before, after, keep);
  }

  lemma ExpiryIsLater(claims: seq<Claim>, now: nat)
    ensures Later(claims, ExpiredClaims(claims, now))
  {
  }

  /** After expiry, an observation stands exactly if its claim has time left. */
  lemma UnexpiredStillLeased(claims: seq<Claim>, o: Claim, now: nat)
    requires LeasedAs(claims, o)
    ensures LeasedAs(ExpiredClaims(claims, now), o) <==> o.expiresAt > now
  {
    var i :| 0 <= i < |claims| && claims[i] == o;
    if o.expiresAt > now {
      assert ExpiredClaims(claims, now)[i] == o;
    }
  }

  class Gathering {
    var claims: seq<Claim>
    var observations: seq<Observation>
    var nextLeaseId: nat
    var generation: nat
    ghost var confirmed: seq<Confirmed>

    ghost predicate Valid()
      reads this
    {
      TableOk(claims, observations, nextLeaseId, confirmed)
    }

    constructor ()
      ensures Valid() && claims == [] && confirmed == []
    {
      claims, observations, nextLeaseId, generation, confirmed := [], [], 1, 0, [];
    }

    method ExpireLocked(now: nat)
      requires Valid()
      modifies `claims, `observations, `generation
      ensures Valid() && claims == ExpiredClaims(old(claims), now)
      ensures forall o :: o in observations <==> o in old(observations) && o.claim.expiresAt > now
      ensures generation == old(generation) + if claims == old(claims) then 0 else 1
    {
      hide TableOk;
      var changed := false;
      ghost var before := claims;
      for i := 0 to |claims|
        invariant |claims| == |before| && observations == old(observations) && generation == old(generation)
        invariant forall j | 0 <= j < i :: claims[j] == ExpiredClaim(before[j], now)
        invariant forall j | i <= j < |claims| :: claims[j] == before[j]
        invariant changed <==> exists j :: 0 <= j < i && claims[j] != before[j]
      {
        if claims[i].state.Leased? && claims[i].expiresAt <= now {
          claims := claims[i := claims[i].(state := State.Released, cause := Expired)];
          changed := true;
        }
      }
      assert claims == ExpiredClaims(before, now);
      DropUnleased(before, now);
      if changed {
        generation := generation + 1;
      }
    }

    method DropUnleased(ghost before: seq<Claim>, ghost now: nat)
      requires TableOk(before, observations, nextLeaseId, confirmed) && claims == ExpiredClaims(before, now)
      modifies `observations
      ensures Valid() && forall o :: o in observations <==> o in old(observations) && o.claim.expiresAt > now
    {
      var current := claims;
      forall o | o in observations
        ensures LeasedAs(current, o.claim) <==> o.claim.expiresAt > now
        ensures LeasedAs(current, o.claim) <==> FindsLeased(current, o.claim.leaseId)
      {
        UnexpiredStillLeased(before, o.claim, now);
        FoundIsObserved(before, o.claim, now, nextLeaseId);
      }
      ExpiryIsLater(before, now);
      hide TableOk, ExpiredClaims, LeasedAs;
      var keep := (o: Observation) => FindsLeased(current, o.claim.leaseId);
      SettlingKeepsTable(before, claims, observations, nextLeaseId, confirmed, keep);
      observations := Filter(observations, keep);
    }

    /** Settles claim i and drops the observations the caller names, which are those of that claim. */
    method Settle(i: nat, cause: Cause, keep: Observation -> bool)
      requires Valid() && i < |claims| && claims[i].state.Leased? && !cause.NoCause? && !cause.Expired?
      requires forall o | o in observations :: keep(o) <==> o.claim != claims[i]
      modifies `claims, `observations, `generation
      ensures Valid() && claims == old(claims)[i := SettledBy(old(claims)[i], cause)]
      ensures forall o :: o in observations <==> o in old(observations) && o.claim != old(claims)[i]
      ensures generation == old(generation) + 1
    {
      hide TableOk;
      ghost var before := claims;
      claims := claims[i := SettledBy(claims[i], cause)];
      OthersStayLeased(before, i, claims, observations, nextLeaseId, confirmed);
      SettlingKeepsTable(before, claims, observations, nextLeaseId, confirmed, keep);
      observations := Filter(observations, keep);
      generation := generation + 1;
    }

    method Release(leaseId: nat, cause: Cause) returns (released: bool)
      requires Valid()
      modifies `claims, `observations, `generation
      ensures Valid()
      ensures released <==> !cause.NoCause? && !cause.Expired? && FindsLeased(old(claims), leaseId)
      ensures released ==> var i := IndexWhere(old(claims), ById(leaseId));
                           && claims == old(claims)[i := SettledBy(old(claims)[i], cause)]
                           && forall o :: o in observations <==> o in old(observations) && o.claim != old(claims)[i]
      ensures !released ==> unchanged(this)
    {
      var i := IndexWhere(claims, ById(leaseId));
      released := i < |claims| && claims[i].state.Leased? && !cause.NoCause? && !cause.Expired?;
      if released {
        ObservedById(claims, observations, nextLeaseId, i);
        hide TableOk;
        Settle(i, cause, (o: Observation) => o.claim.leaseId != leaseId);
      }
    }

    method ReleaseForActorResource(actor: uint32, resource: nat, cause: Cause, now: nat) returns (released: bool)
      requires Valid()
      modifies `claims, `observations, `generation
      ensures Valid()
      ensures var expired := ExpiredClaims(old(claims), now);
              var i := IndexWhere(expired, LeasedOn(actor, resource));
              && (released <==> !cause.NoCause? && !cause.Expired? && i < |expired|)
              && claims == (if released then expired[i := SettledBy(expired[i], cause)] else expired)
              && forall o :: o in observations <==>
                   (o in old(observations) && o.claim.expiresAt > now && !(released && o.claim == expired[i]))
    {
      ExpireLocked(now);
      var i := IndexWhere(claims, LeasedOn(actor, resource));
      released := i < |claims| && !cause.NoCause? && !cause.Expired?;
      if released {
        ObservedByActor(claims, observations, nextLeaseId, i);
        hide TableOk;
        Settle(i, cause, (o: Observation) => !(o.claim.actor == actor && o.claim.resource.guid == resource));
      }
    }

    /** Remembers what an actor held when it started on its lease, in place of anything remembered
        for it before. */
    method Observe(claim: Claim, starting: map<uint32, uint32>) returns (observed: bool)
      requires Valid()
      modifies `observations
      ensures Valid()
      ensures var i := IndexWhere(claims, LeasedLike(claim));
              && (observed <==> i < |claims|)
              && (observed ==> forall o :: o in observations <==>
                    o == Observation(claims[i], starting) || (o in old(observations) && o.claim.actor != claim.actor))
      ensures !observed ==> unchanged(this)
    {
      var i := IndexWhere(claims, LeasedLike(claim));
      observed := i < |claims|;
      if observed {
        var keep := (o: Observation) => o.claim.actor != claim.actor;
        ReplaceKeepsOk(observations, claims, keep, Observation(claims[i], starting));
        observations := Filter(observations, keep) + [Observation(claims[i], starting)];
      }
    }

    /** Confirms loot once the actor holds more of an item than when it was observed. The lease is
        completed with it, so no lease is confirmed twice. */
    method ConfirmLoot(actor: uint32, item: uint32, count: uint32, now: nat) returns (success: Option<Confirmed>)
      requires Valid()
      modifies this
      ensures Valid() && nextLeaseId == old(nextLeaseId)
      ensures confirmed == old(confirmed) + if success.Some? then [success.value] else []
      ensures success.Some? <==> exists o :: o in old(observations) && o.claim.expiresAt > now && Gained(o, actor, item, count) > 0
      ensures success.Some? ==> exists o :: o in old(observations) && Gained(o, actor, item, count) > 0 &&
                                  success.value == Confirmed(o.claim.leaseId, o.claim.resource.guid, actor, item,
                                                           Gained(o, actor, item, count))
      ensures var expired := ExpiredClaims(old(claims), now);
              if success.None? then claims == expired
              else exists i :: 0 <= i < |expired| && expired[i].leaseId == success.value.leaseId && expired[i].state.Leased? &&
                               claims == expired[i := SettledBy(expired[i], Success)]
    {
      ExpireLocked(now);
      success := None;
      var n := ObservedAt(observations, actor);
      if n == |observations| || item == 0 || count <= Start(observations[n], item) {
        return;
      }
      var o := observations[n];
      assert LeasedAs(claims, o.claim);
      ObservedOnce(observations, claims, actor, n);
      FoundLeased(claims, o.claim, nextLeaseId);
      var i := IndexWhere(claims, LeasedId(o.claim.leaseId));
      ObservedByActor(claims, observations, nextLeaseId, i);
      ghost var before := claims;
      success := Some(Confirmed(claims[i].leaseId, claims[i].resource.guid, claims[i].actor, item, count - Start(o, item)));
      Settle(i, Success, (other: Observation) => other.claim.actor != actor);
      ConfirmedAnew(confirmed, before, i, claims, nextLeaseId, success.value);
      confirmed := confirmed + [success.value];
    }

    method RemoveActor(actor: uint32)
      requires Valid()
      modifies `claims, `observations, `generation
      ensures Valid() && |claims| == |old(claims)|
      ensures forall i | 0 <= i < |claims| ::
                claims[i] == if old(claims)[i].actor == actor && old(claims)[i].state.Leased?
                             then old(claims)[i].(state := State.Released, cause := Cause.Disabled) else old(claims)[i]
      ensures forall o :: o in observations <==> o in old(observations) && o.claim.actor != actor
    {
      ghost var before, watched := claims, observations;
      for i := 0 to |claims|
        invariant |claims| == |before| && observations == watched
        invariant forall j | 0 <= j < i :: claims[j] == Removed(before[j], actor)
        invariant forall j | i <= j < |claims| :: claims[j] == before[j]
      {
        if claims[i].actor == actor && claims[i].state.Leased? {
          claims := claims[i := claims[i].(state := State.Released, cause := Cause.Disabled)];
          generation := generation + 1;
        }
      }
      var keep := (o: Observation) => o.claim.actor != actor;
      RemovalSpares(before, actor, claims, observations, nextLeaseId, confirmed);
      hide TableOk;
      SettlingKeepsTable(before, claims, observations, nextLeaseId, confirmed, keep);
      observations := Filter(observations, keep);
    }

    /** Leases the resource to the nearest free candidate. */
    method ClaimGrouped(resource: Resource, candidates: seq<Candidate>, now: nat, leaseSeconds: uint32)
      returns (result: ClaimResult)
      requires Valid()
      modifies this
      ensures Valid() && confirmed == old(confirmed)
      ensures forall o :: o in observations <==> o in old(observations) && o.claim.expiresAt > now
      ensures var expired := ExpiredClaims(old(claims), now);
              match result
              case Blocked(blocker) =>
                && claims == expired && nextLeaseId == old(nextLeaseId)
                && (if resource.guid == 0 || !resource.spawned || resource.phaseMask == 0 || leaseSeconds == 0 then blocker == InvalidResource
                    else if Taken(expired, resource.guid) then blocker == AlreadyClaimed
                    else (forall c | c in candidates :: !Free(expired, c, now)) && Explains(blocker, candidates))
              case Claimed(claim) =>
                && resource.guid != 0 && resource.spawned && resource.phaseMask != 0 && leaseSeconds != 0 && !Taken(expired, resource.guid)
                && claims == expired + [claim] && nextLeaseId == old(nextLeaseId) + 1
                && exists i: nat :: Selected(expired, candidates, now, i) &&
                     claim == Claim.Claim(old(nextLeaseId), resource, candidates[i].guid, now + leaseSeconds, candidates[i].direct,
                                    State.Leased, NoCause)
    {
      ExpireLocked(now);
      if resource.guid == 0 || !resource.spawned || resource.phaseMask == 0 || leaseSeconds == 0 {
        return Blocked(InvalidResource);
      }
      if Taken(claims, resource.guid) {
        return Blocked(AlreadyClaimed);
      }
      var chosen, blocker := Choose(claims, candidates, now);
      if chosen == |candidates| {
        return Blocked(blocker);
      }
      var c := candidates[chosen];
      var claim := Claim.Claim(nextLeaseId, resource, c.guid, now + leaseSeconds, c.direct, State.Leased, NoCause);
      AppendKeepsTable(claims, observations, nextLeaseId, confirmed, claim, now);
      hide TableOk;
      nextLeaseId := nextLeaseId + 1;
      claims := claims + [claim];
      generation := generation + 1;
      result := Claimed(claim);
    }
  }

  predicate Taken(claims: seq<Claim>, resource: nat)
  {
    exists c | c in claims :: c.resource.guid == resource && c.state.Leased?
  }

  /** The index of the selected candidate, or else why there is none. */
  method Choose(claims: seq<Claim>, candidates: seq<Candidate>, now: nat) returns (chosen: nat, blocker: Blocker)
    ensures chosen <= |candidates|
    ensures chosen < |candidates| ==> Selected(claims, candidates, now, chosen)
    ensures chosen == |candidates| ==> (forall c | c in candidates :: !Free(claims, c, now)) && Explains(blocker, candidates)
  {
    hide Busy, Free;
    chosen, blocker := |candidates|, NoCandidate;
    for i := 0 to |candidates|
      invariant chosen == |candidates| || chosen < i
      invariant if chosen < |candidates| then Selected(claims, candidates[..i], now, chosen)
                else forall j | 0 <= j < i :: !Free(claims, candidates[j], now)
      invariant chosen == |candidates| ==> Explains(blocker, candidates[..i])
    {
      var c := candidates[i];
      assert candidates[..i + 1] == candidates[..i] + [c];
      FreeIsNotBusy(claims, c, now);
      if !c.verdict.NoBlocker? {
        ExplainsOn(blocker, candidates[..i], c);
        if blocker.NoCandidate? {
          blocker := c.verdict;
        }
      } else if Busy(claims, c.guid, now) {
        blocker := AlreadyClaimed;
      } else if chosen == |candidates| || Nearer(c, candidates[chosen]) {
        chosen := i;
      }
    }
    assert candidates[..|candidates|] == candidates;
  }

  lemma ExplainsOn(blocker: Blocker, candidates: seq<Candidate>, c: Candidate)
    requires !c.verdict.NoBlocker?
    ensures Explains(blocker, candidates) ==> Explains(if blocker.NoCandidate? then c.verdict else blocker, candidates + [c])
  {
    if Explains(blocker, candidates) && forall d | d in candidates :: !d.verdict.NoBlocker? {
      if d :| d in candidates && !d.verdict.NoCandidate? {
        var i: nat :| FirstVerdict(candidates, i, blocker);
        assert (candidates + [c])[i] in candidates + [c];
        assert FirstVerdict(candidates + [c], i, blocker);
      } else if !c.verdict.NoCandidate? {
        assert (candidates + [c])[|candidates|] in candidates + [c];
        assert FirstVerdict(candidates + [c], |candidates|, c.verdict);
      }
    }
  }

  // ----- who is meant

  function ById(leaseId: nat): Claim -> bool { (c: Claim) => c.leaseId == leaseId }

  function LeasedId(leaseId: nat): Claim -> bool { (c: Claim) => c.leaseId == leaseId && c.state.Leased? }

  function LeasedOn(actor: uint32, resource: nat): Claim -> bool
  {
    (c: Claim) => c.actor == actor && c.resource.guid == resource && c.state.Leased?
  }

  function LeasedLike(claim: Claim): Claim -> bool
  {
    (c: Claim) => c.leaseId == claim.leaseId && c.actor == claim.actor && c.resource.guid == claim.resource.guid && c.state.Leased?
  }

  function ObservedAt(observations: seq<Observation>, actor: uint32): (n: nat)
    ensures n <= |observations|
    ensures n < |observations| ==> observations[n].claim.actor == actor
    ensures n == |observations| ==> forall o | o in observations :: o.claim.actor != actor
  {
    if observations == [] then 0
    else
      var last := |observations| - 1;
      var n := ObservedAt(observations[..last], actor);
      if n < last then n else if observations[last].claim.actor == actor then last else last + 1
  }

  function Start(o: Observation, item: uint32): uint32
  {
    if item in o.starting then o.starting[item] else 0
  }

  /** How many more of an item an actor holds than it did when it was observed. */
  function Gained(o: Observation, actor: uint32, item: uint32, count: uint32): uint32
  {
    if o.claim.actor != actor || item == 0 then 0
    else if item !in o.starting then count
    else Minus(count, o.starting[item])
  }

  function Removed(c: Claim, actor: uint32): Claim
  {
    if c.actor == actor && c.state.Leased? then c.(state := State.Released, cause := Cause.Disabled) else c
  }

  /** The first claim with an id is found and still leased. */
  predicate FindsLeased(claims: seq<Claim>, leaseId: nat)
  {
    var i := IndexWhere(claims, ById(leaseId));
    i < |claims| && claims[i].state.Leased?
  }

  lemma FoundIsObserved(claims: seq<Claim>, o: Claim, now: nat, nextLeaseId: nat)
    requires IdsOk(claims, nextLeaseId) && LeasedAs(claims, o)
    ensures FindsLeased(ExpiredClaims(claims, now), o.leaseId) <==> LeasedAs(ExpiredClaims(claims, now), o)
  {
    var after := ExpiredClaims(claims, now);
    var k :| 0 <= k < |claims| && claims[k] == o;
    assert after[k].leaseId == o.leaseId;
    var i := IndexWhere(after, ById(o.leaseId));
    assert i == k;
  }

  lemma OthersStayLeased(before: seq<Claim>, i: nat, after: seq<Claim>, observations: seq<Observation>, nextLeaseId: nat,
                         confirmed: seq<Confirmed>)
    requires TableOk(before, observations, nextLeaseId, confirmed) && i < |before| && before[i].state.Leased?
    requires |after| == |before| && Settling(before[i], after[i]) && forall j | 0 <= j < |before| && j != i :: after[j] == before[j]
    ensures Later(before, after)
    ensures forall o | o in observations && o.claim != before[i] :: LeasedAs(after, o.claim)
  {
    forall o | o in observations && o.claim != before[i]
      ensures LeasedAs(after, o.claim)
    {
      var k :| 0 <= k < |observations| && observations[k] == o;
      assert LeasedAs(before, observations[k].claim);
      var j :| 0 <= j < |before| && before[j] == o.claim;
      assert after[j] == o.claim;
    }
  }

  /** An observation is of claim i exactly if it carries its id. */
  lemma ObservedById(claims: seq<Claim>, observations: seq<Observation>, nextLeaseId: nat, i: nat)
    requires IdsOk(claims, nextLeaseId) && ObservationsOk(observations, claims) && i < |claims|
    ensures forall o | o in observations :: o.claim.leaseId == claims[i].leaseId <==> o.claim == claims[i]
  {
    forall o | o in observations
      ensures o.claim.leaseId == claims[i].leaseId <==> o.claim == claims[i]
    {
      var k :| 0 <= k < |observations| && observations[k] == o;
      assert LeasedAs(claims, observations[k].claim);
      var j :| 0 <= j < |claims| && claims[j] == o.claim;
    }
  }

  /** An observation is of claim i, which is leased, exactly if it is of its actor. */
  lemma ObservedByActor(claims: seq<Claim>, observations: seq<Observation>, nextLeaseId: nat, i: nat)
    requires Exclusive(claims) && ObservationsOk(observations, claims) && i < |claims| && claims[i].state.Leased?
    ensures forall o | o in observations :: o.claim.actor == claims[i].actor <==> o.claim == claims[i]
  {
    forall o | o in observations
      ensures o.claim.actor == claims[i].actor <==> o.claim == claims[i]
    {
      var k :| 0 <= k < |observations| && observations[k] == o;
      assert LeasedAs(claims, observations[k].claim);
      var j :| 0 <= j < |claims| && claims[j] == o.claim;
    }
  }

  lemma ReplaceKeepsOk(observations: seq<Observation>, claims: seq<Claim>, keep: Observation -> bool, o: Observation)
    requires ObservationsOk(observations, claims) && LeasedAs(claims, o.claim)
    requires forall other | other in observations :: keep(other) <==> other.claim.actor != o.claim.actor
    ensures ObservationsOk(Filter(observations, keep) + [o], claims)
    ensures forall other :: other in Filter(observations, keep) + [o] <==>
              other == o || (other in observations && other.claim.actor != o.claim.actor)
  {
    FilterKeepsDistinct(observations, keep);
    var kept := Filter(observations, keep);
    forall i | 0 <= i < |kept|
      ensures LeasedAs(claims, kept[i].claim) && kept[i].claim.actor != o.claim.actor
    {
      assert kept[i] in kept;
      var k :| 0 <= k < |observations| && observations[k] == kept[i];
      assert LeasedAs(claims, observations[k].claim);
    }
  }

  lemma ObservedOnce(observations: seq<Observation>, claims: seq<Claim>, actor: uint32, n: nat)
    requires ObservationsOk(observations, claims) && n < |observations| && observations[n].claim.actor == actor
    ensures forall o | o in observations && o.claim.actor == actor :: o == observations[n]
  {
    forall o | o in observations && o.claim.actor == actor
      ensures o == observations[n]
    {
      var k :| 0 <= k < |observations| && observations[k] == o;
    }
  }

  lemma FoundLeased(claims: seq<Claim>, o: Claim, nextLeaseId: nat)
    requires IdsOk(claims, nextLeaseId) && LeasedAs(claims, o)
    ensures var i := IndexWhere(claims, LeasedId(o.leaseId)); i < |claims| && claims[i] == o
  {
    var k :| 0 <= k < |claims| && claims[k] == o;
    var i := IndexWhere(claims, LeasedId(o.leaseId));
    assert LeasedId(o.leaseId)(claims[k]);
  }

  lemma ConfirmedAnew(confirmed: seq<Confirmed>, before: seq<Claim>, i: nat, after: seq<Claim>, nextLeaseId: nat, success: Confirmed)
    requires ConfirmedOnce(confirmed, before) && ConfirmedOnce(confirmed, after) && IdsOk(before, nextLeaseId)
    requires i < |before| && before[i].state.Leased? && success.leaseId == before[i].leaseId
    requires after == before[i := SettledBy(before[i], Success)]
    ensures ConfirmedOnce(confirmed + [success], after)
  {
    forall n | 0 <= n < |confirmed|
      ensures confirmed[n].leaseId != success.leaseId
    {
      assert Completes(before, confirmed[n].leaseId);
    }
    assert after[i].leaseId == success.leaseId && after[i].state.Completed?;
    assert Completes(after, success.leaseId);
  }

  lemma RemovalSpares(before: seq<Claim>, actor: uint32, after: seq<Claim>, observations: seq<Observation>, nextLeaseId: nat,
                      confirmed: seq<Confirmed>)
    requires TableOk(before, observations, nextLeaseId, confirmed) && |after| == |before|
    requires forall j | 0 <= j < |after| :: after[j] == Removed(before[j], actor)
    ensures Later(before, after)
    ensures forall o | o in observations && o.claim.actor != actor :: LeasedAs(after, o.claim)
  {
    forall o | o in observations && o.claim.actor != actor
      ensures LeasedAs(after, o.claim)
    {
      var k :| 0 <= k < |observations| && observations[k] == o;
      assert LeasedAs(before, observations[k].claim);
      var j :| 0 <= j < |before| && before[j] == o.claim;
      assert after[j] == o.claim;
    }
  }

  lemma AppendKeepsTable(claims: seq<Claim>, observations: seq<Observation>, nextLeaseId: nat, confirmed: seq<Confirmed>,
                         claim: Claim, now: nat)
    requires TableOk(claims, observations, nextLeaseId, confirmed)
    requires claim.leaseId == nextLeaseId && !Taken(claims, claim.resource.guid) && !Busy(claims, claim.actor, now)
    ensures TableOk(claims + [claim], observations, nextLeaseId + 1, confirmed)
  {
    var after := claims + [claim];
    LaterKeepsConfirmed(confirmed, claims, after);
    forall i | 0 <= i < |observations|
      ensures LeasedAs(after, observations[i].claim)
    {
      assert LeasedAs(claims, observations[i].claim);
      var j :| 0 <= j < |claims| && claims[j] == observations[i].claim;
      assert after[j] == observations[i].claim;
    }
    forall i | 0 <= i < |claims| && claims[i].state.Leased?
      ensures claims[i].resource.guid != claim.resource.guid && claims[i].actor != claim.actor
    {
      assert claims[i] in claims;
    }
  }
}
