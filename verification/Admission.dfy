/**
 Who is granted a lease, of how much, and at whose expense: the answer to a request told from the facts
 and figures the coordinator holds once overdue claims have lapsed.
 */
module Admission {
  import opened Economy
  import opened Order
  import opened Gaps
  import opened Claims
  import opened Trim
  import opened Steps
  import opened Progress
  import opened Safety
  import opened Personal
  import opened Outcomes
  import Compaction

  // ----- what a request must be like

  /** The verdicts the work policy can give. */
  predicate PolicyVerdict(v: Blocker)
  {
    || v.NoBlocker? || v.Illegal? || v.Budget? || v.SameAccountPurchase? || v.MissingLiveObject? || v.MissingPath?
    || v.MissingSkill? || v.WrongPhase? || v.UnsafeTransaction? || v.AutonomousOnly? || v.AffinityTooLow?
  }

  /** The actor is online and works for itself, or on command, in the market it asks about. */
  predicate AtWork(b: Book, r: LeaseRequest)
  {
    && r.actor in b.actors && b.actors[r.actor].online && (b.actors[r.actor].autonomous || r.direct)
    && b.actors[r.actor].market == r.market != 0
  }

  /** Something is asked for, until some time to come, under a name. */
  predicate Proper(r: LeaseRequest, now: nat)
  {
    r.quantity > 0 && r.work != "" && r.expiresAt > now
  }

  /** Both sides of a purchase are known by their accounts. */
  predicate Accounted(b: Book, r: LeaseRequest)
    requires r.actor in b.actors
  {
    r.kind.Purchase? ==> b.actors[r.actor].account != 0 && r.sellerAccount != 0
  }

  /** The identity printed for an auction. */
  ghost predicate NamesAuction(work: string)
  {
    exists auction: nat | auction > 0 :: work == "auction:" + Compaction.Decimal(auction)
  }

  /** A personal purchase buys one piece of equipment, or up to 40 of a food or drink, for its buyer's own use
      at a named auction, and is not both. */
  ghost predicate FitToBePersonal(r: LeaseRequest)
  {
    r.Personal() ==>
      && r.personalEquipment != r.personalSustenance && r.kind.Purchase? && r.priority.Consumer? && r.buying && NamesAuction(r.work)
      && if r.personalEquipment then r.group.kind.Equipment? && r.quantity == 1
         else r.group.kind.Consumable? && r.group.effectFamily in {FOOD_FAMILY, DRINK_FAMILY} && r.quantity <= 40
  }

  /** Nobody has leased the same purchase, if this one or theirs is personal. */
  predicate Uncontested(claims: seq<Claim>, r: LeaseRequest)
  {
    r.kind.Purchase? ==>
      forall c | c in claims && c.terms.kind.Purchase? && c.state.Leased? && c.terms.market == r.market && c.terms.work == r.work ::
        !r.Personal() && !c.Personal()
  }

  /** Fewer than 256 personal purchases are under way. */
  predicate Uncrowded(claims: seq<Claim>, r: LeaseRequest)
  {
    r.Personal() ==> |PersonalIds(claims)| < 256
  }

  // ----- auction identities

  predicate Digits(s: string)
  {
    forall i | 0 <= i < |s| :: '0' <= s[i] <= '9'
  }

  function Spelled(digits: string): nat
    requires Digits(digits)
  {
    if digits == [] then 0
    else
      var n := |digits| - 1;
      Spelled(digits[..n]) * 10 + (digits[n] as int - '0' as int)
  }

  lemma SpelledDigit(c: char)
    requires '0' <= c <= '9'
    ensures Compaction.Digit(c as int - '0' as int) == c
  {
  }

  lemma {:induction false} SpelledIsPrinted(digits: string)
    requires digits != [] && digits[0] != '0' && Digits(digits)
    ensures Spelled(digits) > 0 && Compaction.Decimal(Spelled(digits)) == digits
  {
    var n := |digits| - 1;
    var last := digits[n] as int - '0' as int;
    SpelledDigit(digits[n]);
    assert digits == digits[..n] + [digits[n]];
    if n == 0 {
      assert digits[..0] == [] && Spelled(digits) == last;
    } else {
      SpelledIsPrinted(digits[..n]);
      var front := Spelled(digits[..n]);
      assert Spelled(digits) == front * 10 + last && (front * 10 + last) / 10 == front && (front * 10 + last) % 10 == last;
    }
  }

  lemma {:induction false} PrintedIsDigits(n: nat)
    ensures Digits(Compaction.Decimal(n))
    ensures n > 0 ==> Compaction.Decimal(n)[0] != '0'
  {
    if n < 10 {
    } else {
      PrintedIsDigits(n / 10);
    }
  }

  /** A work identity counts as an auction's exactly if it is one that is printed for an auction. */
  lemma AuctionIdentities(work: string)
    ensures IsAuctionIdentity(work) <==> NamesAuction(work)
  {
    hide Compaction.Decimal;
    if IsAuctionIdentity(work) {
      var digits := work[8..];
      assert work == "auction:" + digits;
      SpelledIsPrinted(digits);
    }
    if NamesAuction(work) {
      var auction: nat :| auction > 0 && work == "auction:" + Compaction.Decimal(auction);
      PrintedIsDigits(auction);
      var digits := Compaction.Decimal(auction);
      assert work[..8] == "auction:" && work[8] == digits[0];
      forall i | 8 <= i < |work|
        ensures '0' <= work[i] <= '9'
      {
        assert work[i] == digits[i - 8];
      }
    }
  }

  // ----- refusals

  lemma FitIsLegal(r: LeaseRequest)
    ensures FitToBePersonal(r) <==>
            (r.personalEquipment ==> LegalPersonalEquipment(r)) && (r.personalSustenance ==> LegalPersonalSustenance(r))
  {
    AuctionIdentities(r.work);
    hide NamesAuction, IsAuctionIdentity;
  }

  lemma DoublesIff(claims: seq<Claim>, r: LeaseRequest)
    ensures DoublesPurchase(claims, r) <==> !Uncontested(claims, r)
  {
  }

  /** The request passes every check that comes before quantities. */
  ghost predicate Welcome(b: Book, r: LeaseRequest, now: nat, verdict: Blocker)
  {
    && AtWork(b, r) && Proper(r, now) && Accounted(b, r) && FitToBePersonal(r) && verdict.NoBlocker?
    && Uncontested(b.claims, r) && Uncrowded(b.claims, r)
  }

  /** Refusals on account of the actor. */
  predicate ActorRefused(b: Book, r: LeaseRequest, result: LeaseResult)
  {
    && (result == Refused(UnknownActor, true) <==> r.actor !in b.actors)
    && (result == Refused(Offline, true) <==> r.actor in b.actors && !b.actors[r.actor].online)
    && (result == Refused(NotAutonomous, true) <==>
          r.actor in b.actors && b.actors[r.actor].online && !b.actors[r.actor].autonomous && !r.direct)
    && (result == Refused(WrongMarket, true) <==>
          r.actor in b.actors && b.actors[r.actor].online && (b.actors[r.actor].autonomous || r.direct) &&
          (r.market == 0 || b.actors[r.actor].market != r.market))
  }

  /** Refusals on account of the request and the policy's verdict on it. */
  ghost predicate RequestRefused(b: Book, r: LeaseRequest, now: nat, verdict: Blocker, result: LeaseResult)
  {
    && (result == Refused(Illegal, true) <==>
          AtWork(b, r) && (!Proper(r, now) || (Accounted(b, r) && FitToBePersonal(r) && verdict.Illegal?)))
    && (result == Refused(AccountIdentityUnavailable, true) <==> AtWork(b, r) && Proper(r, now) && !Accounted(b, r))
    && (result == Refused(Illegal, false) <==> AtWork(b, r) && Proper(r, now) && Accounted(b, r) && !FitToBePersonal(r))
    && (AtWork(b, r) && Proper(r, now) && Accounted(b, r) && FitToBePersonal(r) && !verdict.NoBlocker? ==>
          result == Refused(verdict, true))
  }

  /** Refusals on account of the purchases under way. */
  ghost predicate PurchaseRefused(b: Book, r: LeaseRequest, now: nat, verdict: Blocker, result: LeaseResult)
  {
    result == Refused(Capacity, false) <==>
      AtWork(b, r) && Proper(r, now) && Accounted(b, r) && FitToBePersonal(r) && verdict.NoBlocker? &&
      !(Uncontested(b.claims, r) && Uncrowded(b.claims, r))
  }

  /** What a request comes to that its checks have answered with `screened`. */
  predicate FollowsScreen(screened: Option<LeaseResult>, result: LeaseResult)
  {
    match screened
    case Some(refusal) => result == refusal
    case None => result.Granted? || result == Refused(Capacity, true) || result == Refused(NoDemand, true)
  }

  lemma ActorScreened(b: Book, r: LeaseRequest, now: nat, verdict: Blocker, result: LeaseResult)
    requires PolicyVerdict(verdict) && FollowsScreen(Screen(b, r, now, verdict), result)
    ensures ActorRefused(b, r, result)
  {
    hide LegalPersonalEquipment, LegalPersonalSustenance, DoublesPurchase, PersonalLeases;
  }

  lemma RequestScreened(b: Book, r: LeaseRequest, now: nat, verdict: Blocker, result: LeaseResult)
    requires PolicyVerdict(verdict) && FollowsScreen(Screen(b, r, now, verdict), result)
    ensures RequestRefused(b, r, now, verdict, result)
  {
    FitIsLegal(r);
    hide FitToBePersonal, LegalPersonalEquipment, LegalPersonalSustenance, DoublesPurchase, PersonalLeases;
  }

  lemma PurchaseScreened(b: Book, r: LeaseRequest, now: nat, verdict: Blocker, result: LeaseResult)
    requires ClaimsOk(b.claims, b.nextLeaseId) && PolicyVerdict(verdict) && FollowsScreen(Screen(b, r, now, verdict), result)
    ensures PurchaseRefused(b, r, now, verdict, result)
  {
    FitIsLegal(r);
    DoublesIff(b.claims, r);
    PersonalLeasesCounted(b.claims, b.nextLeaseId);
    hide FitToBePersonal, LegalPersonalEquipment, LegalPersonalSustenance, Uncontested, DoublesPurchase, ClaimsOk, PersonalLeases,
      PersonalIds;
  }

  lemma WelcomeIsScreened(b: Book, r: LeaseRequest, now: nat, verdict: Blocker)
    requires ClaimsOk(b.claims, b.nextLeaseId)
    ensures Screen(b, r, now, verdict).None? <==> Welcome(b, r, now, verdict)
  {
    FitIsLegal(r);
    DoublesIff(b.claims, r);
    PersonalLeasesCounted(b.claims, b.nextLeaseId);
    hide FitToBePersonal, LegalPersonalEquipment, LegalPersonalSustenance, Uncontested, DoublesPurchase, ClaimsOk, PersonalLeases,
      PersonalIds;
  }

  lemma LeaseFollowsScreen(b: Book, r: LeaseRequest, now: nat, verdict: Blocker, chain: Option<nat>)
    ensures FollowsScreen(Screen(Tick(b, now), r, now, verdict), Lease(b, r, now, verdict, chain).1)
  {
    LeaseTakesWhatIsOpen(b, r, now, verdict, chain);
    hide Tick, Lease, Screen, OpenTo, ServedFrom;
  }

  /** Whether a request is refused by a check, and by which, depends on nothing but what the check is about:
      the actor, the request, the policy's verdict and the purchases already under way. */
  lemma LeaseRefusedAsDue(b: Book, r: LeaseRequest, now: nat, verdict: Blocker, chain: Option<nat>)
    requires ClaimsOk(b.claims, b.nextLeaseId) && PolicyVerdict(verdict)
    ensures var ticked, result := Tick(b, now), Lease(b, r, now, verdict, chain).1;
            ActorRefused(ticked, r, result) && RequestRefused(ticked, r, now, verdict, result) &&
            PurchaseRefused(ticked, r, now, verdict, result)
  {
    TickForward(b, now);
    LeaseFollowsScreen(b, r, now, verdict, chain);
    hide Tick, Lease, Screen, ActorRefused, RequestRefused, PurchaseRefused, FollowsScreen, Descends;
    var result := Lease(b, r, now, verdict, chain).1;
    ActorScreened(Tick(b, now), r, now, verdict, result);
    RequestScreened(Tick(b, now), r, now, verdict, result);
    PurchaseScreened(Tick(b, now), r, now, verdict, result);
  }

  // ----- quantities

  /** The claims that are not held on speculation. */
  function Firm(claims: seq<Claim>): seq<Claim>
  {
    if claims == [] then []
    else
      var last := claims[|claims| - 1];
      Firm(claims[..|claims| - 1]) + if last.terms.priority.Speculation? then [] else [last]
  }

  lemma FirmLast(claims: seq<Claim>)
    requires claims != []
    ensures var n := |claims| - 1;
            Firm(claims) == if claims[n].terms.priority.Speculation? then Firm(claims[..n]) else Firm(claims[..n]) + [claims[n]]
  {
  }

  /** Totals once speculation has made way: its promises and purchases are gone, what it made is not. */
  predicate WithoutSpeculation(t: GapTotals, firm: GapTotals, after: GapTotals)
  {
    && after.supply == t.supply && after.claimed == firm.claimed
    && after.purchase == t.purchase && after.speculation == 0 && after.demand == t.demand && after.auction == t.auction
  }

  lemma OneMakesWay(c: Claim, k: GapKey, now: nat)
    requires ClaimOk(c)
    ensures var d := ReleaseOne(c, c.Key() == k && c.terms.priority.Speculation?, NeedChanged, now);
            var part := ClaimPart(c, k);
            WithoutSpeculation(part, if c.terms.priority.Speculation? then Zero() else part, ClaimPart(d, k))
  {
  }

  lemma PlusWithoutSpeculation(t: GapTotals, firm: GapTotals, after: GapTotals, t': GapTotals, firm': GapTotals, after': GapTotals)
    requires WithoutSpeculation(t, firm, after) && WithoutSpeculation(t', firm', after')
    ensures WithoutSpeculation(Plus(t, t'), Plus(firm, firm'), Plus(after, after'))
  {
  }

  lemma ReleasedLast(claims: seq<Claim>, k: GapKey, now: nat)
    requires claims != []
    ensures var n := |claims| - 1;
            SpeculationReleased(claims, k, now) ==
            SpeculationReleased(claims[..n], k, now) +
            [ReleaseOne(claims[n], claims[n].Key() == k && claims[n].terms.priority.Speculation?, NeedChanged, now)]
  {
  }

  lemma {:induction false} SpeculationMakesWay(claims: seq<Claim>, k: GapKey, now: nat)
    requires AllOk(claims)
    ensures WithoutSpeculation(ClaimTotals(claims, k), ClaimTotals(Firm(claims), k), ClaimTotals(SpeculationReleased(claims, k, now), k))
  {
    if claims == [] {
      assert SpeculationReleased(claims, k, now) == [];
    } else {
      hide ClaimTotals, ClaimPart, ReleaseOne, ClaimOk, WithoutSpeculation, Firm, SpeculationReleased, Plus;
      var n := |claims| - 1;
      var c := claims[n];
      var d := ReleaseOne(c, c.Key() == k && c.terms.priority.Speculation?, NeedChanged, now);
      SpeculationMakesWay(claims[..n], k, now);
      OneMakesWay(c, k, now);
      PlusWithoutSpeculation(ClaimTotals(claims[..n], k), ClaimTotals(Firm(claims[..n]), k),
                             ClaimTotals(SpeculationReleased(claims[..n], k, now), k),
                             ClaimPart(c, k), if c.terms.priority.Speculation? then Zero() else ClaimPart(c, k), ClaimPart(d, k));
      ClaimTotalsLast(claims, k);
      FirmLast(claims);
      ReleasedLast(claims, k, now);
      ClaimTotalsAppend(SpeculationReleased(claims[..n], k, now), d, k);
      ClaimTotalsAppend(Firm(claims[..n]), c, k);
      PlusZero(ClaimTotals(Firm(claims[..n]), k));
    }
  }

  /** How much of a gap a shared request may have. Production may have what is neither supplied nor promised,
      and if that is nothing, what would not be promised but for speculation. A purchase may have what is needed,
      is not yet leased and is at auction, however much of that is held on speculation; a purchase on
      speculation, what is at auction and neither needed nor leased. */
  ghost function Room(b: Book, r: LeaseRequest): nat
  {
    var t := TotalsAt(b, r.Key());
    var need := Minus(t.demand, t.nonAuction);
    if !r.kind.Purchase? then
      var promised :=
        if r.priority.Speculation? || t.demand > t.supply + t.claimed then t.claimed else ClaimTotals(Firm(b.claims), r.Key()).claimed;
      Minus(t.demand, t.supply + promised)
    else if r.priority.Speculation? then Minus(t.auction, Max(need, t.purchase) + t.speculation)
    else Min(Minus(need, t.purchase), Minus(t.auction, t.purchase))
  }

  /** A request that is not speculation needs what speculation holds: there is nothing else to produce, or what
      is left at auction does not cover what is still to be bought. */
  ghost predicate NeedsRoom(b: Book, r: LeaseRequest)
  {
    var t := TotalsAt(b, r.Key());
    && !r.priority.Speculation?
    && if !r.kind.Purchase? then t.demand <= t.supply + t.claimed
       else t.speculation > 0 && Minus(t.auction, t.purchase + t.speculation) < Minus(Minus(t.demand, t.nonAuction), t.purchase)
  }

  lemma ServedFromIs(b: Book, r: LeaseRequest, now: nat)
    ensures ServedFrom(b, r, now) == if NeedsRoom(b, r) then b.(claims := SpeculationReleased(b.claims, r.Key(), now)) else b
  {
    hide TotalsAt, SpeculationReleased;
  }

  lemma BookWithoutSpeculation(b: Book, k: GapKey, now: nat)
    requires AllOk(b.claims)
    ensures WithoutSpeculation(TotalsAt(b, k), ClaimTotals(Firm(b.claims), k),
                               TotalsAt(b.(claims := SpeculationReleased(b.claims, k, now)), k))
  {
    SpeculationMakesWay(b.claims, k, now);
    FactTotalsFactsOnly(b, k);
    TotalsWithClaims(b, SpeculationReleased(b.claims, k, now), k);
    hide FactTotals, ClaimTotals, SpeculationReleased, Firm;
  }

  lemma PurchaseRoom(t: GapTotals, firm: GapTotals, cleared: GapTotals)
    requires WithoutSpeculation(t, firm, cleared)
    ensures var u := if SpeculationInTheWay(t) then cleared else t;
            var need := Minus(t.demand, t.nonAuction);
            Min(Minus(PurchaseNeed(t), t.purchase), Minus(u.auction, u.purchase + u.speculation)) ==
            Min(Minus(need, t.purchase), Minus(t.auction, t.purchase))
  {
  }

  lemma OpenIsRoom(b: Book, r: LeaseRequest, now: nat)
    requires AllOk(b.claims)
    ensures OpenTo(b, r, now) == Room(b, r)
  {
    hide TotalsAt, ClaimTotals, SpeculationReleased, Firm;
    BookWithoutSpeculation(b, r.Key(), now);
    PurchaseRoom(TotalsAt(b, r.Key()), ClaimTotals(Firm(b.claims), r.Key()),
                 TotalsAt(b.(claims := SpeculationReleased(b.claims, r.Key(), now)), r.Key()));
    hide Min, Max;
  }

  // ----- grants

  /** The claim a request becomes: all it says of itself, and nothing made yet. Only work carries what it
      makes, and only a shared claim a chain. */
  predicate ClaimOf(claim: Claim, leaseId: nat, r: LeaseRequest, chain: Option<nat>, now: nat)
  {
    && claim.terms.leaseId == leaseId && claim.terms.chain == (if r.Personal() then None else chain)
    && claim.terms.actor == r.actor && claim.terms.market == r.market && claim.terms.group == r.group
    && claim.terms.kind == r.kind && claim.terms.priority == r.priority && claim.terms.direct == r.direct
    && claim.terms.work == r.work && claim.terms.createdAt == now
    && claim.terms.recipe == (if r.kind.Purchase? then 0 else r.recipe)
    && claim.terms.output == (if r.kind.Purchase? then 0 else r.output)
    && claim.terms.personalEquipment == r.personalEquipment && claim.terms.personalSustenance == r.personalSustenance
    && claim.state.Leased? && claim.committed == claim.bridged == claim.settledAt == 0 && claim.expiresAt == r.expiresAt
    && claim.lastOutcome.Committed?
  }

  /** Speculation at a key is released, and nothing else changes. */
  predicate SpeculationGone(before: seq<Claim>, after: seq<Claim>, k: GapKey, now: nat)
  {
    && |after| == |before|
    && forall i | 0 <= i < |before| ::
         after[i] == if before[i].state.Leased? && before[i].terms.priority.Speculation? && before[i].Key() == k
                     then before[i].(state := Released, lastOutcome := NeedChanged, settledAt := now,
                                     bridged := if before[i].terms.kind.Purchase? then 0 else before[i].committed)
                     else before[i]
  }

  lemma SpeculationGoes(claims: seq<Claim>, k: GapKey, now: nat)
    ensures SpeculationGone(claims, SpeculationReleased(claims, k, now), k, now)
  {
  }

  lemma LeasedClaimIs(b: Book, r: LeaseRequest, now: nat, verdict: Blocker, chain: Option<nat>)
    requires Screen(Tick(b, now), r, now, verdict).None? && Lease(b, r, now, verdict, chain).1.Granted?
    ensures ClaimOf(Lease(b, r, now, verdict, chain).1.claim, b.nextLeaseId, r, chain, now)
    ensures Lease(b, r, now, verdict, chain).0.nextLeaseId == b.nextLeaseId + 1
  {
    hide Expired, Screen, TotalsAt, SpeculationReleased;
  }

  /** The answer to a request, in full. It is granted exactly if it passes every check and, unless it is
      personal, has a chain or is speculation and finds room; then it takes all the room it asks for. Speculation
      gives way exactly if there is not room enough without it. */
  lemma LeaseGrantedIff(b: Book, r: LeaseRequest, now: nat, verdict: Blocker, chain: Option<nat>)
    requires ClaimsOk(b.claims, b.nextLeaseId)
    ensures var ticked := Tick(b, now);
            var (after, result) := Lease(b, r, now, verdict, chain);
            var chained := chain.Some? || r.priority.Speculation?;
            && (result.Granted? <==> Welcome(ticked, r, now, verdict) && (r.Personal() || (chained && Room(ticked, r) > 0)))
            && (result.Granted? ==> ClaimOf(result.claim, b.nextLeaseId, r, chain, now))
            && (result.Granted? ==> result.claim.quantity == if r.Personal() then r.quantity else Min(r.quantity, Room(ticked, r)))
            && (Welcome(ticked, r, now, verdict) && result.Refused? ==> result == Refused(if chained then NoDemand else Capacity, true))
  {
    TickForward(b, now);
    var ticked := Tick(b, now);
    WelcomeIsScreened(ticked, r, now, verdict);
    OpenIsRoom(ticked, r, now);
    LeaseTakesWhatIsOpen(b, r, now, verdict, chain);
    ScreenRefuses(ticked, r, now, verdict);
    if Lease(b, r, now, verdict, chain).1.Granted? {
      LeasedClaimIs(b, r, now, verdict, chain);
    }
    hide Tick, Lease, Screen, Welcome, Room, OpenTo, ServedFrom, ClaimOf, Descends;
  }

  /** What a request does to the claims: a grant adds one, speculation makes way if it must, and all else stays. */
  lemma LeaseMovesClaims(b: Book, r: LeaseRequest, now: nat, verdict: Blocker, chain: Option<nat>)
    requires ClaimsOk(b.claims, b.nextLeaseId)
    ensures var ticked := Tick(b, now);
            var (after, result) := Lease(b, r, now, verdict, chain);
            var n := |ticked.claims|;
            && (if result.Granted? then |after.claims| == n + 1 && after.claims[n] == result.claim else |after.claims| == n)
            && (if Welcome(ticked, r, now, verdict) && !r.Personal() && (chain.Some? || r.priority.Speculation?) && NeedsRoom(ticked, r)
                then SpeculationGone(ticked.claims, after.claims[..n], r.Key(), now) else after.claims[..n] == ticked.claims)
  {
    TickForward(b, now);
    var ticked := Tick(b, now);
    WelcomeIsScreened(ticked, r, now, verdict);
    ServedFromIs(ticked, r, now);
    SpeculationGoes(ticked.claims, r.Key(), now);
    LeaseTakesWhatIsOpen(b, r, now, verdict, chain);
    ScreenRefuses(ticked, r, now, verdict);
    hide Tick, Lease, Screen, Welcome, OpenTo, ServedFrom, NeedsRoom, SpeculationReleased, SpeculationGone, Descends;
    assert SpeculationGone(ticked.claims, SpeculationReleased(ticked.claims, r.Key(), now), r.Key(), now);
  }
}
