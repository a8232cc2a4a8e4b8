/**
 The path a bot plans for gathering a material itself: how much of what is asked the spawned
 resources can back, what that takes, and by when it is needed. A stored path is only accepted again
 if building it anew from its own fields gives the same path.
 */
module GatheringPath {
  import opened Economy

  const MAX_IDENTITY_BYTES: nat := 191
  const BASIS_POINTS: nat := 10_000
  const HERBALISM: uint32 := 182
  const MINING: uint32 := 186
  const SKINNING: uint32 := 393

  datatype SourceKind = Gathering | Hunting

  datatype Phase = Selected | Acquiring | Completed | Released

  datatype PathInput = PathInput(
    kind: SourceKind,
    actor: uint32,
    material: uint32,
    asked: uint32,
    skill: uint32,
    sourceEntry: uint32,
    sourceMap: uint32,
    route: string,
    capacity: string,
    selectedAt: nat,
    sourceTravel: uint32,
    destinationYield: uint32,
    observedGathered: uint32,
    observedAttempts: uint32,
    observedSeconds: uint32,
    interactionSeconds: uint32,
    remainingActivity: uint32,
    deliveryTravel: uint32,
    completionObservation: uint32,
    startingInventory: uint32,
    available: uint32)

  datatype Path = Path(
    kind: SourceKind,
    phase: Phase,
    actor: uint32,
    material: uint32,
    selected: uint32,
    skill: uint32,
    sourceEntry: uint32,
    sourceMap: uint32,
    route: string,
    capacity: string,
    revision: nat,
    selectedAt: nat,
    sourceTravel: uint32,
    sourceAction: uint32,
    deliveryTravel: uint32,
    completionObservation: uint32,
    destinationYield: uint32,
    conservativeYield: uint32,
    observedGathered: uint32,
    observedAttempts: uint32,
    observedSeconds: uint32,
    interactionSeconds: uint32,
    remainingActivity: uint32,
    requiredResources: uint32,
    secondsPerResource: uint32,
    startingInventory: uint32,
    available: uint32,
    neededBy: nat)

  /** What a path's revision is a digest of: everything but the kind and the starting inventory. */
  datatype RevisionFacts = RevisionFacts(input: PathInput)

  function FactsOf(i: PathInput, selected: uint32): RevisionFacts
  {
    RevisionFacts(i.(asked := selected, kind := Gathering, startingInventory := 0))
  }

  /** Two paths have the same digest facts exactly if they select as much and agree in everything but the kind of
      source, what was asked for and what was held at the start. */
  lemma DigestCovers(i: PathInput, j: PathInput, selected: uint32, other: uint32)
    ensures FactsOf(i, selected) == FactsOf(j, other) <==>
            selected == other && i == j.(kind := i.kind, asked := i.asked, startingInventory := i.startingInventory)
  {
  }

  predicate SkillMatchesKind(i: PathInput)
  {
    if i.kind.Hunting? then i.skill == 0 else i.skill == HERBALISM || i.skill == MINING || i.skill == SKINNING
  }

  predicate FactsComplete(i: PathInput)
  {
    && i.actor != 0 && i.material != 0 && i.asked != 0 && i.sourceEntry != 0 && SkillMatchesKind(i)
    && 0 < |i.route| <= MAX_IDENTITY_BYTES && 0 < |i.capacity| <= MAX_IDENTITY_BYTES
    && 0 < i.selectedAt <= MAX_UINT64 && i.destinationYield != 0 && i.interactionSeconds != 0 && i.remainingActivity != 0
    && i.deliveryTravel == 0 && i.completionObservation != 0 && i.available != 0
  }

  /** Observations come with attempts, and attempts with time. */
  predicate HistoryConsistent(i: PathInput)
  {
    if i.observedAttempts == 0 then i.observedGathered == 0 && i.observedSeconds == 0 else i.observedSeconds != 0
  }

  function CeilDiv(a: nat, b: nat): (r: nat)
    requires b > 0
    ensures a <= r * b < a + b
  {
    Floored(a + b - 1, b);
    (a + b - 1) / b
  }

  function Div(a: nat, b: nat): (r: nat)
    requires b > 0
    ensures r * b <= a < r * b + b
  {
    Floored(a, b);
    a / b
  }

  function ColdStartSeconds(i: PathInput): nat
    requires i.destinationYield != 0
  {
    var perItem := CeilDiv(BASIS_POINTS, i.destinationYield);
    if perItem == 0 then 0 else Div(i.remainingActivity, perItem)
  }

  /** The yield counted on: the destination's, or less if experience says less. The program also checks
      that the sum fits 64 bits, which it always does for 32-bit observations. */
  function CountedYield(i: PathInput): (r: uint32)
    requires i.destinationYield != 0
    ensures r <= i.destinationYield
  {
    if i.observedAttempts == 0 then i.destinationYield
    else Min(i.destinationYield, Div(i.destinationYield + i.observedGathered * BASIS_POINTS, i.observedAttempts + 1))
  }

  function Seconds(i: PathInput): nat
    requires i.destinationYield != 0
  {
    Max(i.interactionSeconds,
        if i.observedAttempts == 0 then ColdStartSeconds(i) else CeilDiv(i.observedSeconds, i.observedAttempts))
  }

  function ResourcesFor(quantity: nat, countedYield: uint32): nat
    requires countedYield != 0
  {
    CeilDiv(quantity * BASIS_POINTS, countedYield)
  }

  function Backable(available: uint32, countedYield: uint32): nat
  {
    Div(available * countedYield, BASIS_POINTS)
  }

  /** What is asked, or as much of it as the spawned resources can back. */
  function SelectedQuantity(i: PathInput, countedYield: uint32): (r: uint32)
    requires countedYield != 0
    ensures r <= i.asked
  {
    if ResourcesFor(i.asked, countedYield) <= i.available then i.asked else Min(Backable(i.available, countedYield), i.asked)
  }

  function NeededBy(selectedAt: nat, sourceTravel: uint32, sourceAction: uint32, deliveryTravel: uint32, observation: uint32): Option<nat>
  {
    var sum := selectedAt + sourceTravel + sourceAction + deliveryTravel + observation;
    if sum <= MAX_UINT64 then Some(sum) else None
  }

  function Build(i: PathInput, hash: RevisionFacts -> nat): Option<Path>
  {
    if !FactsComplete(i) || !HistoryConsistent(i) || ColdStartSeconds(i) == 0 || CountedYield(i) == 0 then None
    else
      var counted, seconds := CountedYield(i), Seconds(i);
      var selected := SelectedQuantity(i, counted);
      var required := ResourcesFor(selected, counted);
      if selected == 0 || required == 0 || required > i.available || seconds == 0 || required > MAX_UINT32 ||
         seconds > MAX_UINT32 || required > Div(MAX_UINT32, seconds)
      then None
      else
        var action := Bounded(Max(required * seconds, i.remainingActivity));
        var neededBy := NeededBy(i.selectedAt, i.sourceTravel, action, i.deliveryTravel, i.completionObservation);
        var revision := hash(FactsOf(i, selected));
        if neededBy.None? || revision == 0 then None
        else
          Some(Path(i.kind, Selected, i.actor, i.material, selected, i.skill, i.sourceEntry, i.sourceMap, i.route, i.capacity,
                    revision, i.selectedAt, i.sourceTravel, action, i.deliveryTravel, i.completionObservation,
                    i.destinationYield, counted, i.observedGathered, i.observedAttempts, i.observedSeconds,
                    i.interactionSeconds, i.remainingActivity, required, seconds, i.startingInventory, i.available,
                    neededBy.value))
  }

  // ----- arithmetic

  /** Rounding up stays below a bound exactly if the exact quotient does. */
  lemma CeilAtMost(a: nat, b: nat, c: nat)
    requires b > 0
    ensures CeilDiv(a, b) <= c <==> a <= c * b
  {
    hide CeilDiv;
    var r := CeilDiv(a, b);
    if r <= c {
      TimesAtMost(b, r, c);
    } else {
      TimesAtMost(b, c + 1, r);
    }
  }

  lemma DivAtLeast(a: nat, b: nat, c: nat)
    requires b > 0
    ensures c <= Div(a, b) <==> c * b <= a
  {
    hide Div;
    var r := Div(a, b);
    if c <= r {
      TimesAtMost(b, c, r);
    } else {
      TimesAtMost(b, r + 1, c);
    }
  }

  /** A quantity can be backed by what is available exactly if it is at most the backable quantity. */
  lemma BackedIff(quantity: nat, available: uint32, countedYield: uint32)
    requires countedYield != 0
    ensures ResourcesFor(quantity, countedYield) <= available <==> quantity <= Backable(available, countedYield)
  {
    hide CeilDiv, Div;
    CeilAtMost(quantity * BASIS_POINTS, countedYield, available);
    DivAtLeast(available * countedYield, BASIS_POINTS, quantity);
  }

  /** The quantity selected is the largest, up to what was asked, that the available resources back. */
  lemma SelectsLargestBacked(i: PathInput, countedYield: uint32)
    requires countedYield != 0
    ensures var selected := SelectedQuantity(i, countedYield);
            && ResourcesFor(selected, countedYield) <= i.available
            && forall quantity | selected < quantity <= i.asked :: ResourcesFor(quantity, countedYield) > i.available
  {
    hide ResourcesFor, Backable;
    BackedIff(i.asked, i.available, countedYield);
    BackedIff(SelectedQuantity(i, countedYield), i.available, countedYield);
    forall quantity | SelectedQuantity(i, countedYield) < quantity <= i.asked
      ensures ResourcesFor(quantity, countedYield) > i.available
    {
      BackedIff(quantity, i.available, countedYield);
    }
  }

  lemma SomethingTakesResources(quantity: nat, countedYield: uint32)
    requires countedYield != 0
    ensures ResourcesFor(quantity, countedYield) > 0 <==> quantity > 0
  {
    hide CeilDiv;
    CeilAtMost(quantity * BASIS_POINTS, countedYield, 0);
  }

  // ----- what a built path promises

  predicate ActionFits(required: nat, seconds: nat) { required * seconds <= MAX_UINT32 }

  lemma ProductFits(required: nat, seconds: nat)
    requires seconds > 0
    ensures required <= Div(MAX_UINT32, seconds) <==> ActionFits(required, seconds)
  {
    DivAtLeast(MAX_UINT32, seconds, required);
  }

  /** Identities are given, the skill suits the kind of source, goods are handed over on the spot, and
      whatever is divided by or counted on is not zero. */
  predicate Answerable(i: PathInput)
  {
    && i.actor > 0 && i.material > 0 && i.asked > 0 && i.sourceEntry > 0 && 0 < i.selectedAt <= MAX_UINT64
    && (if i.kind.Hunting? then i.skill == 0 else i.skill in {HERBALISM, MINING, SKINNING})
    && i.route != "" && |i.route| <= 191 && i.capacity != "" && |i.capacity| <= 191
    && i.destinationYield > 0 && i.interactionSeconds > 0 && i.remainingActivity > 0 && i.available > 0
    && i.deliveryTravel == 0 && i.completionObservation > 0
    && (i.observedAttempts == 0 ==> i.observedGathered == 0 && i.observedSeconds == 0)
    && (i.observedAttempts > 0 ==> i.observedSeconds > 0)
  }

  /** The yield counted on is the destination's until something has been tried; from then on the tries count,
      with one more that yields as the destination promises, but never for more than the destination. */
  predicate CountsYield(i: PathInput, counted: nat)
  {
    if i.observedAttempts == 0 then counted == i.destinationYield
    else
      && counted <= i.destinationYield && YieldShown(i, counted)
      && forall more: nat | counted < more <= i.destinationYield :: !YieldShown(i, more)
  }

  predicate YieldShown(i: PathInput, y: nat)
  {
    y * (i.observedAttempts + 1) <= i.destinationYield + i.observedGathered * BASIS_POINTS
  }

  /** The fewest whole resources that yield an item. */
  predicate ResourcesPerItem(i: PathInput, n: nat)
  {
    n * i.destinationYield >= BASIS_POINTS && n > 0 && (n - 1) * i.destinationYield < BASIS_POINTS
  }

  /** A resource takes at least an interaction. Once something has been tried it takes as long as the tries took
      on average, rounded up; before that, as long as leaves time for one item in the window. */
  predicate CountsSeconds(i: PathInput, perItem: nat, seconds: nat)
  {
    && seconds >= i.interactionSeconds
    && if i.observedAttempts > 0 then
         seconds * i.observedAttempts >= i.observedSeconds &&
         (seconds == i.interactionSeconds || (seconds - 1) * i.observedAttempts < i.observedSeconds)
       else
         (seconds == i.interactionSeconds || seconds * perItem <= i.remainingActivity) && (seconds + 1) * perItem > i.remainingActivity
  }

  /** The resources that a quantity takes at a yield. */
  predicate Takes(quantity: nat, counted: nat, resources: nat)
  {
    resources * counted >= quantity * BASIS_POINTS && (resources > 0 ==> (resources - 1) * counted < quantity * BASIS_POINTS)
  }

  /** As much as is asked, or as much of it as the available resources back. */
  predicate Backs(i: PathInput, counted: nat, selected: nat)
  {
    && selected <= i.asked && selected * BASIS_POINTS <= i.available * counted
    && (selected == i.asked || (selected + 1) * BASIS_POINTS > i.available * counted)
  }

  /** A plan for an input: what to count on, what to ask for and what that takes. The window leaves time for an
      item, and the work and the horizon fit their words. */
  predicate Plans(i: PathInput, counted: nat, perItem: nat, seconds: nat, selected: nat, resources: nat)
  {
    && Answerable(i) && CountsYield(i, counted) && ResourcesPerItem(i, perItem) && perItem <= i.remainingActivity
    && CountsSeconds(i, perItem, seconds) && Backs(i, counted, selected) && selected > 0 && Takes(selected, counted, resources)
    && Budgeted(i, resources, seconds)
  }

  /** The seconds that the work on some resources takes. */
  function Work(resources: nat, seconds: nat): nat { resources * seconds }

  /** The seconds and the work fit 32 bits, and the horizon 64. */
  predicate Budgeted(i: PathInput, resources: nat, seconds: nat)
  {
    && seconds <= MAX_UINT32 && Work(resources, seconds) <= MAX_UINT32
    && i.selectedAt + i.sourceTravel + Max(Work(resources, seconds), i.remainingActivity) + i.deliveryTravel +
       i.completionObservation <= MAX_UINT64
  }

  lemma CeilIs(a: nat, b: nat, c: nat)
    requires b > 0
    ensures c == CeilDiv(a, b) <==> c * b >= a && (c > 0 ==> (c - 1) * b < a)
  {
    hide CeilDiv;
    CeilAtMost(a, b, c);
    if c > 0 {
      CeilAtMost(a, b, c - 1);
    }
  }

  lemma YieldIsCounted(i: PathInput, counted: nat)
    requires i.destinationYield > 0
    ensures CountsYield(i, counted) <==> counted == CountedYield(i)
  {
    hide Div;
    var shown := i.destinationYield + i.observedGathered * BASIS_POINTS;
    forall y: nat
      ensures y <= Div(shown, i.observedAttempts + 1) <==> YieldShown(i, y)
    {
      DivAtLeast(shown, i.observedAttempts + 1, y);
    }
    hide YieldShown;
    assert i.observedAttempts > 0 ==> YieldShown(i, CountedYield(i));
  }

  lemma SecondsAreCounted(i: PathInput, perItem: nat, seconds: nat)
    requires i.destinationYield > 0 && ResourcesPerItem(i, perItem)
    ensures CountsSeconds(i, perItem, seconds) <==> seconds == Seconds(i)
  {
    CeilIs(BASIS_POINTS, i.destinationYield, perItem);
    hide CeilDiv, Div;
    if i.observedAttempts > 0 {
      CeilAtMost(i.observedSeconds, i.observedAttempts, seconds);
      if seconds > 0 {
        CeilAtMost(i.observedSeconds, i.observedAttempts, seconds - 1);
      }
    } else {
      DivAtLeast(i.remainingActivity, perItem, seconds);
      DivAtLeast(i.remainingActivity, perItem, seconds + 1);
    }
  }

  lemma BackedIsSelected(i: PathInput, counted: uint32, selected: nat)
    requires counted > 0
    ensures Backs(i, counted, selected) <==> selected == SelectedQuantity(i, counted)
  {
    hide CeilDiv, Div, ResourcesFor;
    BackedIff(i.asked, i.available, counted);
    DivAtLeast(i.available * counted, BASIS_POINTS, selected);
    DivAtLeast(i.available * counted, BASIS_POINTS, selected + 1);
    DivAtLeast(i.available * counted, BASIS_POINTS, i.asked);
  }

  lemma AnswerableIsComplete(i: PathInput)
    ensures Answerable(i) <==> FactsComplete(i) && HistoryConsistent(i)
  {
  }

  lemma WindowFitsItem(i: PathInput, perItem: nat)
    requires i.destinationYield > 0 && ResourcesPerItem(i, perItem)
    ensures perItem <= i.remainingActivity <==> ColdStartSeconds(i) > 0
  {
    CeilIs(BASIS_POINTS, i.destinationYield, perItem);
    hide CeilDiv, Div;
    DivAtLeast(i.remainingActivity, perItem, 1);
  }

  lemma PerItemExists(i: PathInput) returns (perItem: nat)
    requires i.destinationYield > 0
    ensures ResourcesPerItem(i, perItem)
  {
    perItem := CeilDiv(BASIS_POINTS, i.destinationYield);
    CeilIs(BASIS_POINTS, i.destinationYield, perItem);
    hide CeilDiv;
    CeilAtMost(BASIS_POINTS, i.destinationYield, 0);
  }

  /** A plan for the input as the program finds it. */
  lemma PlanIsFound(i: PathInput, counted: nat, perItem: nat, seconds: nat, selected: nat, resources: nat)
    requires Answerable(i) && ResourcesPerItem(i, perItem)
    ensures Plans(i, counted, perItem, seconds, selected, resources) <==>
            && ColdStartSeconds(i) > 0 && counted == CountedYield(i) > 0 && seconds == Seconds(i)
            && selected == SelectedQuantity(i, CountedYield(i)) > 0 && resources == ResourcesFor(selected, CountedYield(i))
            && Budgeted(i, resources, seconds)
  {
    YieldIsCounted(i, counted);
    SecondsAreCounted(i, perItem, seconds);
    WindowFitsItem(i, perItem);
    if counted == CountedYield(i) > 0 {
      BackedIsSelected(i, counted, selected);
      CeilIs(selected * BASIS_POINTS, counted, resources);
    }
    hide CeilDiv, Div, CountedYield, Seconds, SelectedQuantity, ColdStartSeconds, CountsYield, CountsSeconds, Answerable, ResourcesPerItem,
      Budgeted;
    if counted == 0 {
      NothingBacked(i, selected);
    }
  }

  lemma NothingBacked(i: PathInput, selected: nat)
    ensures Backs(i, 0, selected) ==> selected == 0
  {
  }

  /** A built path is a plan for its input. Its action budget is the larger of the work and the window; it is
      needed by the end of its budgets; and it carries the facts it was built from, and their digest. */
  ghost predicate Keeps(i: PathInput, p: Path, hash: RevisionFacts -> nat)
  {
    && (exists perItem: nat :: Plans(i, p.conservativeYield, perItem, p.secondsPerResource, p.selected, p.requiredResources))
    && p.sourceAction == Max(Work(p.requiredResources, p.secondsPerResource), i.remainingActivity)
    && p.neededBy == i.selectedAt + i.sourceTravel + p.sourceAction + i.deliveryTravel + i.completionObservation
    && InputOf(p) == i.(asked := p.selected) && p.phase.Selected? && p.revision == hash(FactsOf(i, p.selected)) != 0
  }

  lemma BuildsWhatIsFound(i: PathInput, hash: RevisionFacts -> nat)
    requires FactsComplete(i) && HistoryConsistent(i) && ColdStartSeconds(i) > 0 && CountedYield(i) > 0
    ensures var selected := SelectedQuantity(i, CountedYield(i));
            var required, seconds := ResourcesFor(selected, CountedYield(i)), Seconds(i);
            Build(i, hash).Some? <==> selected > 0 && Budgeted(i, required, seconds) && hash(FactsOf(i, selected)) != 0
  {
    hide CeilDiv, Div, ColdStartSeconds, CountedYield;
    var counted, seconds := CountedYield(i), Seconds(i);
    var selected := SelectedQuantity(i, counted);
    SelectsLargestBacked(i, counted);
    SomethingTakesResources(selected, counted);
    ProductFits(ResourcesFor(selected, counted), seconds);
    hide SelectedQuantity, ResourcesFor;
  }

  lemma PathKeepsItsPromises(i: PathInput, hash: RevisionFacts -> nat)
    requires Build(i, hash).Some?
    ensures Keeps(i, Build(i, hash).value, hash)
  {
    var p := Build(i, hash).value;
    AnswerableIsComplete(i);
    var perItem := PerItemExists(i);
    BuildsWhatIsFound(i, hash);
    PlanIsFound(i, p.conservativeYield, perItem, p.secondsPerResource, p.selected, p.requiredResources);
    hide CeilDiv, Div, SelectedQuantity, CountedYield, Seconds, ColdStartSeconds, ResourcesFor, Plans, ResourcesPerItem;
  }

  /** A path is built exactly when there is a plan for its input and the digest of its facts is not zero. */
  lemma PathExistsIff(i: PathInput, hash: RevisionFacts -> nat)
    ensures Build(i, hash).Some? <==>
            exists counted: nat, perItem: nat, seconds: nat, selected: uint32, resources: nat ::
              Plans(i, counted, perItem, seconds, selected, resources) && hash(FactsOf(i, selected)) != 0
  {
    AnswerableIsComplete(i);
    if Build(i, hash).Some? {
      PathKeepsItsPromises(i, hash);
      var p := Build(i, hash).value;
      var perItem: nat :| Plans(i, p.conservativeYield, perItem, p.secondsPerResource, p.selected, p.requiredResources);
    }
    if counted: nat, perItem: nat, seconds: nat, selected: uint32, resources: nat :|
         Plans(i, counted, perItem, seconds, selected, resources) && hash(FactsOf(i, selected)) != 0 {
      PlanIsFound(i, counted, perItem, seconds, selected, resources);
      BuildsWhatIsFound(i, hash);
    }
  }

  // ----- stored paths

  function InputOf(p: Path): PathInput
  {
    PathInput(p.kind, p.actor, p.material, p.selected, p.skill, p.sourceEntry, p.sourceMap, p.route, p.capacity, p.selectedAt,
              p.sourceTravel, p.destinationYield, p.observedGathered, p.observedAttempts, p.observedSeconds,
              p.interactionSeconds, p.remainingActivity, p.deliveryTravel, p.completionObservation, p.startingInventory,
              p.available)
  }

  /** What is demanded of a path before its source is begun: nothing was held at the start, and it
      rebuilds to itself, but for an action budget of its own, to which its horizon must add up. */
  predicate ValidSelected(p: Path, hash: RevisionFacts -> nat)
  {
    var rebuilt := Build(InputOf(p), hash);
    var neededBy := NeededBy(p.selectedAt, p.sourceTravel, p.sourceAction, p.deliveryTravel, p.completionObservation);
    && p.phase.Selected? && p.startingInventory == 0 && rebuilt.Some? && p.sourceAction != 0 && neededBy.Some?
    && rebuilt.value.(sourceAction := p.sourceAction, neededBy := neededBy.value) == p
  }

  lemma SelectionIsStable(i: PathInput, selected: uint32, countedYield: uint32)
    requires countedYield != 0 && selected == SelectedQuantity(i, countedYield)
    ensures SelectedQuantity(i.(asked := selected), countedYield) == selected
  {
    SelectsLargestBacked(i, countedYield);
    hide ResourcesFor, Backable;
  }

  /** Building a path from a built path's own fields gives the same path, even if it backs less than was
      asked. */
  lemma RebuildsToItself(i: PathInput, hash: RevisionFacts -> nat)
    requires Build(i, hash).Some?
    ensures Build(InputOf(Build(i, hash).value), hash) == Build(i, hash)
  {
    hide CeilDiv, Div;
    var p := Build(i, hash).value;
    SelectionIsStable(i, p.selected, CountedYield(i));
    SelectsLargestBacked(i, CountedYield(i));
    assert InputOf(p) == i.(asked := p.selected);
    hide SelectedQuantity, ResourcesFor;
  }

  /** So every built path is admitted with a new commitment, exactly if nothing was held at the start. */
  lemma BuiltPathsAreAccepted(i: PathInput, hash: RevisionFacts -> nat)
    requires Build(i, hash).Some?
    ensures ValidSelected(Build(i, hash).value, hash) <==> i.startingInventory == 0
  {
    RebuildsToItself(i, hash);
    PathKeepsItsPromises(i, hash);
    hide CeilDiv, Div, SelectedQuantity, ResourcesFor, CountedYield, Seconds, ColdStartSeconds;
  }

  /** And stays valid with any other action budget it may have been admitted with. */
  lemma AdmittedBudgetsStand(p: Path, hash: RevisionFacts -> nat, action: uint32)
    requires ValidSelected(p, hash) && action != 0
    ensures var neededBy := NeededBy(p.selectedAt, p.sourceTravel, action, p.deliveryTravel, p.completionObservation);
            neededBy.Some? ==> ValidSelected(p.(sourceAction := action, neededBy := neededBy.value), hash)
  {
    hide Build;
    assert InputOf(p.(sourceAction := action, neededBy := p.neededBy)) == InputOf(p);
  }

  /** A stored path is valid exactly if it is a plan for its own fields: nothing about it can have been changed
      but the action budget, and the horizon with it. */
  lemma ValidIffPlanned(p: Path, hash: RevisionFacts -> nat)
    ensures ValidSelected(p, hash) <==>
            && (exists perItem: nat ::
                  Plans(InputOf(p), p.conservativeYield, perItem, p.secondsPerResource, p.selected, p.requiredResources))
            && p.phase.Selected? && p.startingInventory == 0 && p.sourceAction != 0
            && p.revision == hash(FactsOf(InputOf(p), p.selected)) != 0
            && p.neededBy == p.selectedAt + p.sourceTravel + p.sourceAction + p.deliveryTravel + p.completionObservation <= MAX_UINT64
  {
    var i := InputOf(p);
    AnswerableIsComplete(i);
    if Build(i, hash).Some? {
      PathKeepsItsPromises(i, hash);
    }
    forall perItem: nat | Plans(i, p.conservativeYield, perItem, p.secondsPerResource, p.selected, p.requiredResources)
      ensures hash(FactsOf(i, p.selected)) != 0 ==> Build(i, hash).Some?
      ensures Build(i, hash).Some? ==> SameFigures(Build(i, hash).value, p)
    {
      PlanIsFound(i, p.conservativeYield, perItem, p.secondsPerResource, p.selected, p.requiredResources);
      BuildsWhatIsFound(i, hash);
    }
    hide Plans, CeilDiv, Div, SelectedQuantity, CountedYield, Seconds, ColdStartSeconds, ResourcesFor, Build;
  }

  /** The figures a plan consists of. */
  predicate SameFigures(p: Path, q: Path)
  {
    && p.conservativeYield == q.conservativeYield && p.secondsPerResource == q.secondsPerResource && p.selected == q.selected
    && p.requiredResources == q.requiredResources
  }

  /** What a restart demands of a stored path itself: that it was valid before its source was begun. How far it
      has come since, and what was held when it began, does not matter. */
  predicate ValidStored(p: Path, hash: RevisionFacts -> nat)
  {
    ValidSelected(p.(phase := Selected, startingInventory := 0), hash)
  }

  lemma HeldMovesNothing(i: PathInput, hash: RevisionFacts -> nat)
    requires Build(i, hash).Some?
    ensures Build(i.(startingInventory := 0), hash) == Some(Build(i, hash).value.(startingInventory := 0))
  {
    hide ResourcesFor, Backable, Div, CeilDiv;
    assert FactsOf(i.(startingInventory := 0), Build(i, hash).value.selected) == FactsOf(i, Build(i, hash).value.selected);
  }

  /** A restart accepts every path that was built, at whatever phase it is, whatever was held when it
      began, and with whatever action budget it was admitted, if its horizon adds up. */
  lemma RestartsAcceptBuiltPaths(i: PathInput, hash: RevisionFacts -> nat, phase: Phase, held: uint32, action: uint32)
    requires Build(i, hash).Some? && action != 0
    ensures var p := Build(i, hash).value;
            var neededBy := NeededBy(p.selectedAt, p.sourceTravel, action, p.deliveryTravel, p.completionObservation);
            && ValidStored(p.(phase := phase, startingInventory := held), hash)
            && (neededBy.Some? ==>
                  ValidStored(p.(phase := phase, startingInventory := held, sourceAction := action, neededBy := neededBy.value), hash))
  {
    hide Build, ValidSelected, NeededBy;
    var empty := i.(startingInventory := 0);
    HeldMovesNothing(i, hash);
    BuiltIsSelected(i, hash);
    BuiltPathsAreAccepted(empty, hash);
    AdmittedBudgetsStand(Build(empty, hash).value, hash, action);
  }

  lemma BuiltIsSelected(i: PathInput, hash: RevisionFacts -> nat)
    requires Build(i, hash).Some?
    ensures Build(i, hash).value.phase == Selected
  {
    hide ResourcesFor, SelectedQuantity;
  }
}
