/**
 Vocabulary shared by the models of the bot economy: bounded integers, substitution
 groups, market facts and the claims a coordinator hands out.
 */
module Economy {
  type uint32 = n: int | 0 <= n <= 0xFFFF_FFFF

  const MAX_UINT32: uint32 := 0xFFFF_FFFF
  const MAX_UINT64: nat := 0xFFFF_FFFF_FFFF_FFFF
  const CLAIM_RETENTION_SECONDS: nat := 300
  const CHAIN_CAPACITY: nat := 256
  const CHAIN_HISTORY_CAPACITY: nat := 64
  const SUSTENANCE_CARRYING_BUDGET: nat := 40

  datatype Option<+T> = None | Some(value: T)

  function Min(a: nat, b: nat): nat { if a <= b then a else b }

  function Max(a: nat, b: nat): nat { if a <= b then b else a }

  /** Subtraction that stops at zero, written `a > b ? a - b : 0` throughout the program. */
  function Minus(a: nat, b: nat): nat { if a > b then a - b else 0 }

  function Bounded(quantity: nat): uint32 { if quantity <= MAX_UINT32 then quantity else MAX_UINT32 }

  /** Division of natural numbers rounds down. */
  lemma Floored(a: nat, n: nat)
    requires n > 0
    ensures 0 <= a / n && a / n * n <= a < a / n * n + n
  {
    assert a == a / n * n + a % n;
  }

  lemma TimesAtMost(a: nat, b: nat, c: nat)
    requires b <= c
    ensures a * b <= a * c && b * a <= c * a
  {
  }

  /** A sequence less one of its elements. */
  function Without<T>(s: seq<T>, i: nat): (r: seq<T>)
    requires i < |s|
    ensures |r| == |s| - 1
    ensures forall j | 0 <= j < |r| :: r[j] == s[if j < i then j else j + 1]
  {
    s[..i] + s[i + 1..]
  }

  datatype GroupKind = ExactReagent | Equipment | Bag | Ammunition | Consumable | Enhancement | Glyph | Gem
  {
    function Ordinal(): nat {
      match this
      case ExactReagent => 0
      case Equipment => 1
      case Bag => 2
      case Ammunition => 3
      case Consumable => 4
      case Enhancement => 5
      case Glyph => 6
      case Gem => 7
    }
  }

  /** What would satisfy a demand. The identity tuple of the program, in its comparison order:
      `head` packs the fields from the exact item to the tier, `tail` those from the enhancement
      target to the value band. */
  datatype Group = Group(kind: GroupKind, head: nat, effectFamily: uint32, tail: nat)

  const FOOD_FAMILY: uint32 := 0
  const DRINK_FAMILY: uint32 := 1

  datatype GapKey = GapKey(market: uint32, group: Group)

  datatype SupplySource = Inventory | Mail | ActiveAuction | CommittedPurchase | CommittedProduction

  datatype DemandFact = DemandFact(group: Group, quantity: uint32)

  datatype SupplyFact = SupplyFact(group: Group, quantity: uint32, source: SupplySource, itemId: uint32)

  datatype ActorFacts = ActorFacts(
    guid: uint32,
    account: uint32,
    market: uint32,
    online: bool,
    autonomous: bool,
    recipes: seq<uint32>,
    demands: seq<DemandFact>,
    supplies: seq<SupplyFact>)

  datatype MarketFacts = MarketFacts(market: uint32, supplies: seq<SupplyFact>)

  datatype ClaimKind = Production | Purchase | Resource

  datatype ClaimPriority = Speculation | Producer | Consumer

  datatype ClaimState = Leased | Released | Completed

  datatype Outcome =
    | Committed
    | Completed
    | InventoryReceived
    | FailedTravel
    | FailedPurchase
    | CapabilityLost
    | NeedChanged
    | LoggedOut
    | Disabled

  /** What a claim is for. Fixed when it is leased. */
  datatype Terms = Terms(
    leaseId: nat,
    chain: Option<nat>,
    actor: uint32,
    market: uint32,
    group: Group,
    kind: ClaimKind,
    priority: ClaimPriority,
    direct: bool,
    work: string,
    createdAt: nat,
    recipe: uint32,
    output: uint32,
    personalEquipment: bool,
    personalSustenance: bool)
  {
    function Key(): GapKey { GapKey(market, group) }

    predicate Personal() { personalEquipment || personalSustenance }
  }

  datatype Claim = Claim(
    terms: Terms,
    quantity: uint32,
    committed: uint32,
    bridged: uint32,
    state: ClaimState,
    lastOutcome: Outcome,
    expiresAt: nat,
    settledAt: nat)
  {
    function Key(): GapKey { terms.Key() }

    predicate Personal() { terms.Personal() }
  }
}
