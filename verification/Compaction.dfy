/**
 Compaction of the material book: intents of departed characters and stale ones go, with all their
 commitments, and old settled commitments go by themselves. The character behind an intent is read
 back from the text of its origin identity.
 */
module Compaction {
  import opened Economy

  // ----- origin identities

  const PREFIX: string := "profession-progression:"

  datatype IntentInput = IntentInput(guid: uint32, skill: uint32, targetSkill: uint32, recipe: uint32, output: uint32)

  function Digit(d: nat): char
    requires d < 10
  {
    '0' + d as char
  }

  function Decimal(n: nat): (s: string)
    ensures s != []
  {
    if n < 10 then [Digit(n)] else Decimal(n / 10) + [Digit(n % 10)]
  }

  function OriginIdentity(input: IntentInput): string
  {
    PREFIX + (Decimal(input.guid) + (":" + Decimal(input.skill) + ":" + Decimal(input.targetSkill) + ":" +
                                     Decimal(input.recipe) + ":" + Decimal(input.output)))
  }

  /** The number a string of digits spells, if it is one and fits 32 bits at every digit. */
  function Number(s: string): Option<uint32>
  {
    if s == [] then Some(0)
    else
      var before, digit := Number(s[..|s| - 1]), s[|s| - 1];
      if before.None? || digit < '0' || digit > '9' then None
      else
        var n := before.value * 10 + (digit as int - '0' as int);
        if n > MAX_UINT32 then None else Some(n)
  }

  function Colon(s: string): (i: nat)
    ensures i <= |s|
    ensures i < |s| ==> s[i] == ':'
    ensures forall j | 0 <= j < i :: s[j] != ':'
  {
    if s == [] then 0
    else if s[0] == ':' then 0 else 1 + Colon(s[1..])
  }

  /** The character an origin identity names. */
  function GuidOf(identity: string): Option<uint32>
  {
    if |identity| < |PREFIX| || identity[..|PREFIX|] != PREFIX then None
    else
      var rest := identity[|PREFIX|..];
      var end := Colon(rest);
      if end == |rest| || end == 0 then None else Number(rest[..end])
  }

  lemma NumberNone(s: string, i: nat)
    requires i <= |s| && Number(s[..i]).None?
    ensures Number(s).None?
    decreases |s| - i
  {
    if i == |s| {
      assert s[..i] == s;
    } else {
      assert s[..i + 1][..i] == s[..i];
      NumberNone(s, i + 1);
    }
  }

  method ReadGuid(identity: string) returns (guid: Option<uint32>)
    ensures guid == GuidOf(identity)
  {
    if |identity| < |PREFIX| || identity[..|PREFIX|] != PREFIX {
      return None;
    }
    var rest := identity[|PREFIX|..];
    var end := Colon(rest);
    if end == |rest| || end == 0 {
      return None;
    }
    var n: nat := 0;
    for i := 0 to end
      invariant n <= MAX_UINT32 && Number(rest[..end][..i]) == Some(n)
    {
      assert rest[..end][..i + 1][..i] == rest[..end][..i] && rest[..end][i] == rest[i];
      var digit := rest[i];
      if digit < '0' || digit > '9' || n * 10 + (digit as int - '0' as int) > MAX_UINT32 {
        NumberNone(rest[..end], i + 1);
        return None;
      }
      n := n * 10 + (digit as int - '0' as int);
    }
    assert rest[..end][..end] == rest[..end];
    guid := Some(n);
  }

  lemma {:induction false} DecimalReads(n: uint32)
    ensures Number(Decimal(n)) == Some(n)
    ensures forall c | c in Decimal(n) :: c != ':'
  {
    if n < 10 {
      assert [Digit(n)][..0] == [];
    } else {
      DecimalReads(n / 10);
      var front := Decimal(n / 10);
      assert (front + [Digit(n % 10)])[..|front|] == front;
    }
  }

  lemma ColonAfter(front: string, rest: string)
    requires (forall c | c in front :: c != ':') && rest != [] && rest[0] == ':'
    ensures Colon(front + rest) == |front|
  {
    var s := front + rest;
    forall j | 0 <= j < |front|
      ensures s[j] != ':'
    {
      assert front[j] in front;
    }
    assert s[|front|] == ':';
  }

  /** Reading back a printed origin identity gives the character it was printed for. */
  lemma PrintedGuidIsRead(input: IntentInput)
    ensures GuidOf(OriginIdentity(input)) == Some(input.guid)
  {
    var guid := Decimal(input.guid);
    var rest := ":" + Decimal(input.skill) + ":" + Decimal(input.targetSkill) + ":" + Decimal(input.recipe) + ":" + Decimal(input.output);
    DecimalReads(input.guid);
    hide Decimal, Number, Colon;
    ColonAfter(guid, rest);
    var identity := OriginIdentity(input);
    assert identity == PREFIX + (guid + rest);
    assert identity[..|PREFIX|] == PREFIX && identity[|PREFIX|..] == guid + rest;
    assert (guid + rest)[..|guid|] == guid;
  }

  function Zeros(n: nat): string { seq(n, i => '0') }

  lemma ReadNext(s: string, c: char)
    ensures Number(s + [c]) ==
            if Number(s).None? || c < '0' || c > '9' then None
            else if Number(s).value * 10 + (c as int - '0' as int) > MAX_UINT32 then None
            else Some(Number(s).value * 10 + (c as int - '0' as int))
  {
    assert (s + [c])[..|s|] == s;
  }

  lemma {:induction false} ZerosRead(n: nat)
    ensures Number(Zeros(n)) == Some(0)
  {
    if n == 0 {
    } else {
      ZerosRead(n - 1);
      assert Zeros(n) == Zeros(n - 1) + ['0'];
      ReadNext(Zeros(n - 1), '0');
    }
  }

  lemma {:induction false} PaddedReads(zeros: nat, n: uint32)
    ensures Number(Zeros(zeros) + Decimal(n)) == Some(n)
  {
    if n < 10 {
      ZerosRead(zeros);
      ReadNext(Zeros(zeros), Digit(n));
    } else {
      PaddedReads(zeros, n / 10);
      assert Zeros(zeros) + Decimal(n) == (Zeros(zeros) + Decimal(n / 10)) + [Digit(n % 10)];
      ReadNext(Zeros(zeros) + Decimal(n / 10), Digit(n % 10));
    }
  }

  lemma DecimalNext(n: nat, d: nat)
    requires n > 0 && d < 10
    ensures Decimal(n * 10 + d) == Decimal(n) + [Digit(d)]
  {
  }

  lemma OneMoreZero(zeros: nat)
    ensures Zeros(zeros) + Decimal(0) == Zeros(zeros + 1)
  {
  }

  lemma {:induction false} ReadsPadded(s: string) returns (zeros: nat)
    requires s != [] && Number(s).Some?
    ensures s == Zeros(zeros) + Decimal(Number(s).value)
  {
    hide Decimal, Zeros;
    var n := |s| - 1;
    var d := s[n] as int - '0' as int;
    assert s == s[..n] + [s[n]];
    ReadNext(s[..n], s[n]);
    assert Digit(d) == s[n];
    SingleDigit(d);
    if n == 0 {
      assert s[..0] == [];
      zeros := 0;
    } else {
      hide Number;
      zeros := ReadsPadded(s[..n]);
      var front := Number(s[..n]).value;
      if front == 0 {
        OneMoreZero(zeros);
        zeros := zeros + 1;
      } else {
        DecimalNext(front, d);
      }
    }
  }

  lemma SingleDigit(d: nat)
    requires d < 10
    ensures Decimal(d) == [Digit(d)] && Zeros(0) == []
  {
  }

  lemma {:induction false} NoColon(s: string)
    requires Number(s).Some?
    ensures forall c | c in s :: c != ':'
  {
    if s == [] {
    } else {
      NoColon(s[..|s| - 1]);
      assert s == s[..|s| - 1] + [s[|s| - 1]];
    }
  }

  /** An identity names a character exactly if the prefix, its guid in decimal, perhaps after leading zeros, and
      a colon come first. */
  lemma GuidIsNamedIff(identity: string, guid: uint32)
    ensures GuidOf(identity) == Some(guid) <==>
            exists zeros: nat, rest: string :: identity == PREFIX + (Zeros(zeros) + Decimal(guid)) + ":" + rest
  {
    hide Decimal, Number, Colon, Zeros;
    if GuidOf(identity) == Some(guid) {
      var rest := identity[|PREFIX|..];
      var end := Colon(rest);
      var zeros := ReadsPadded(rest[..end]);
      assert rest == rest[..end] + ":" + rest[end + 1..];
      assert identity == PREFIX + (Zeros(zeros) + Decimal(guid)) + ":" + rest[end + 1..];
    }
    if zeros: nat, rest: string :| identity == PREFIX + (Zeros(zeros) + Decimal(guid)) + ":" + rest {
      var digits := Zeros(zeros) + Decimal(guid);
      PaddedReads(zeros, guid);
      NoColon(digits);
      ColonAfter(digits, ":" + rest);
      assert identity == PREFIX + (digits + (":" + rest));
      assert identity[|PREFIX|..] == digits + (":" + rest) && identity[..|PREFIX|] == PREFIX;
      assert (digits + (":" + rest))[..|digits|] == digits;
    }
  }

  // ----- the book

  datatype CommitmentState = Admitted | PartiallyFulfilled | Completed | Released | Superseded

  datatype Intent = Intent(origin: string, lastObservedAt: nat)

  datatype Commitment = Commitment(identity: string, origin: string, state: CommitmentState, neededBy: nat)

  /** An entry of the book's log: the revision it made, and the commitments it names. */
  datatype Operation = Operation(revision: nat, commitments: seq<string>)

  datatype Book = Book(revision: nat, log: seq<Operation>, intents: seq<Intent>, commitments: seq<Commitment>)

  /** A compaction as it is submitted: what to drop, and how much of the log to keep. */
  datatype Command = Command(expectedRevision: nat, origins: seq<string>, commitments: seq<string>, retainedOperations: uint32)

  predicate IsActive(state: CommitmentState) { state.Admitted? || state.PartiallyFulfilled? }

  predicate HasActive(commitments: seq<Commitment>, origin: string)
  {
    exists c | c in commitments :: IsActive(c.state) && c.origin == origin
  }

  predicate Departed(origin: string, absent: set<uint32>)
  {
    GuidOf(origin).Some? && GuidOf(origin).value in absent
  }

  /** An intent goes if its character is gone, or if nobody has asked for it lately and nothing it is
      owed is under way. */
  predicate IntentGoes(i: Intent, commitments: seq<Commitment>, absent: set<uint32>, cutoff: nat)
  {
    Departed(i.origin, absent) || (i.lastObservedAt < cutoff && !HasActive(commitments, i.origin))
  }

  function OriginsToDrop(intents: seq<Intent>, commitments: seq<Commitment>, absent: set<uint32>, cutoff: nat): seq<string>
  {
    if intents == [] then []
    else
      var last := intents[|intents| - 1];
      OriginsToDrop(intents[..|intents| - 1], commitments, absent, cutoff) +
      if IntentGoes(last, commitments, absent, cutoff) then [last.origin] else []
  }

  /** A commitment goes by itself if it is settled, long due, and not going with its origin. */
  predicate CommitmentGoes(c: Commitment, origins: seq<string>, cutoff: nat)
  {
    !IsActive(c.state) && c.neededBy < cutoff && c.origin !in origins
  }

  function CommitmentsToDrop(commitments: seq<Commitment>, origins: seq<string>, cutoff: nat): seq<string>
  {
    if commitments == [] then []
    else
      var last := commitments[|commitments| - 1];
      CommitmentsToDrop(commitments[..|commitments| - 1], origins, cutoff) +
      if CommitmentGoes(last, origins, cutoff) then [last.identity] else []
  }

  function Cutoff(now: nat, staleAfter: nat): nat { Minus(now, staleAfter) }

  predicate LogOverCap(b: Book, retained: uint32) { retained != 0 && |b.log| > retained }

  function CompactionOf(b: Book, now: nat, absent: set<uint32>, staleAfter: nat, retained: uint32): Option<Command>
  {
    var cutoff := Cutoff(now, staleAfter);
    var origins := OriginsToDrop(b.intents, b.commitments, absent, cutoff);
    var commitments := CommitmentsToDrop(b.commitments, origins, cutoff);
    if origins == [] && commitments == [] && !LogOverCap(b, retained) then None
    else Some(Command(b.revision, origins, commitments, retained))
  }

  function Absent(guids: seq<uint32>): set<uint32> { set g | g in guids :: g }

  method BuildCompaction(b: Book, now: nat, absentGuids: seq<uint32>, staleAfter: nat, retained: uint32) returns (command: Option<Command>)
    ensures command == CompactionOf(b, now, Absent(absentGuids), staleAfter, retained)
  {
    var absent := Absent(absentGuids);
    var active: set<string> := {};
    for i := 0 to |b.commitments|
      invariant forall origin :: origin in active <==> HasActive(b.commitments[..i], origin)
    {
      assert forall c :: c in b.commitments[..i + 1] <==> c in b.commitments[..i] || c == b.commitments[i];
      if IsActive(b.commitments[i].state) {
        active := active + {b.commitments[i].origin};
      }
    }
    assert b.commitments[..|b.commitments|] == b.commitments;
    var cutoff := Cutoff(now, staleAfter);
    var origins: seq<string> := [];
    var dropped: set<string> := {};
    for i := 0 to |b.intents|
      invariant origins == OriginsToDrop(b.intents[..i], b.commitments, absent, cutoff)
      invariant forall origin :: origin in dropped <==> origin in origins
    {
      assert b.intents[..i + 1][..i] == b.intents[..i];
      var intent := b.intents[i];
      var guid := ReadGuid(intent.origin);
      var departed := guid.Some? && guid.value in absent;
      if departed || (intent.lastObservedAt < cutoff && intent.origin !in active) {
        origins := origins + [intent.origin];
        dropped := dropped + {intent.origin};
      }
    }
    assert b.intents[..|b.intents|] == b.intents;
    var commitments: seq<string> := [];
    for i := 0 to |b.commitments|
      invariant commitments == CommitmentsToDrop(b.commitments[..i], origins, cutoff)
    {
      assert b.commitments[..i + 1][..i] == b.commitments[..i];
      var c := b.commitments[i];
      if !IsActive(c.state) && c.neededBy < cutoff && c.origin !in dropped {
        commitments := commitments + [c.identity];
      }
    }
    if origins == [] && commitments == [] && !LogOverCap(b, retained) {
      return None;
    }
    command := Some(Command(b.revision, origins, commitments, retained));
  }

  // ----- what is listed

  lemma {:induction false} OriginsListed(intents: seq<Intent>, commitments: seq<Commitment>, absent: set<uint32>, cutoff: nat, origin: string)
    ensures origin in OriginsToDrop(intents, commitments, absent, cutoff) <==>
            exists i | i in intents :: i.origin == origin && IntentGoes(i, commitments, absent, cutoff)
  {
    if intents == [] {
    } else {
      hide IntentGoes;
      var n := |intents| - 1;
      OriginsListed(intents[..n], commitments, absent, cutoff, origin);
      assert forall i :: i in intents <==> i in intents[..n] || i == intents[n];
    }
  }

  lemma {:induction false} CommitmentsListed(commitments: seq<Commitment>, origins: seq<string>, cutoff: nat, identity: string)
    ensures identity in CommitmentsToDrop(commitments, origins, cutoff) <==>
            exists c | c in commitments :: c.identity == identity && CommitmentGoes(c, origins, cutoff)
  {
    if commitments == [] {
    } else {
      hide CommitmentGoes;
      var n := |commitments| - 1;
      CommitmentsListed(commitments[..n], origins, cutoff, identity);
      assert forall c :: c in commitments <==> c in commitments[..n] || c == commitments[n];
    }
  }

  lemma MembersDiffer(s: seq<Commitment>, c: Commitment, d: Commitment)
    requires DistinctIdentities(s) && c in s && d in s && c.identity == d.identity
    ensures c == d
  {
  }

  /** Which intents a compaction lists: those of an absent character, and those last observed longer ago than
      `staleAfter` that are owed nothing under way. All others stay. */
  lemma IntentListedIff(b: Book, now: nat, absent: set<uint32>, staleAfter: nat, retained: uint32, i: Intent)
    requires (forall x, y | 0 <= x < y < |b.intents| :: b.intents[x].origin != b.intents[y].origin) && i in b.intents
    ensures var command := CompactionOf(b, now, absent, staleAfter, retained);
            command.Some? && i.origin in command.value.origins <==>
            || (exists guid | guid in absent :: GuidOf(i.origin) == Some(guid))
            || (i.lastObservedAt + staleAfter < now &&
                forall c | c in b.commitments && c.origin == i.origin ::
                  c.state.Completed? || c.state.Released? || c.state.Superseded?)
  {
    hide GuidOf, OriginsToDrop, CommitmentsToDrop;
    var cutoff := Cutoff(now, staleAfter);
    OriginsListed(b.intents, b.commitments, absent, cutoff, i.origin);
    assert forall other | other in b.intents && other.origin == i.origin :: other == i;
    assert i.lastObservedAt + staleAfter < now <==> i.lastObservedAt < cutoff;
  }

  /** Which commitments it lists by themselves: those settled, due longer ago than `staleAfter`, whose origin
      it does not list. All others stay unless their origin goes. */
  lemma CommitmentListedIff(b: Book, now: nat, absent: set<uint32>, staleAfter: nat, retained: uint32, c: Commitment)
    requires DistinctIdentities(b.commitments) && c in b.commitments
    ensures var command := CompactionOf(b, now, absent, staleAfter, retained);
            command.Some? && c.identity in command.value.commitments <==>
            && (c.state.Completed? || c.state.Released? || c.state.Superseded?) && c.neededBy + staleAfter < now
            && (command.Some? ==> c.origin !in command.value.origins)
  {
    hide OriginsToDrop, CommitmentsToDrop;
    var cutoff := Cutoff(now, staleAfter);
    var origins := OriginsToDrop(b.intents, b.commitments, absent, cutoff);
    CommitmentsListed(b.commitments, origins, cutoff, c.identity);
    forall d | d in b.commitments && d.identity == c.identity
      ensures d == c
    {
      MembersDiffer(b.commitments, c, d);
    }
    assert c.neededBy + staleAfter < now <==> c.neededBy < cutoff;
  }

  /** Every intent of an absent character is listed, by whatever identity it was printed with. */
  lemma DepartedIntentsGo(b: Book, now: nat, absent: set<uint32>, staleAfter: nat, retained: uint32, input: IntentInput)
    requires input.guid in absent && exists i | i in b.intents :: i.origin == OriginIdentity(input)
    ensures var command := CompactionOf(b, now, absent, staleAfter, retained);
            command.Some? && OriginIdentity(input) in command.value.origins
  {
    PrintedGuidIsRead(input);
    hide OriginIdentity, GuidOf, HasActive;
    OriginsListed(b.intents, b.commitments, absent, Cutoff(now, staleAfter), OriginIdentity(input));
    var i :| i in b.intents && i.origin == OriginIdentity(input);
    assert IntentGoes(i, b.commitments, absent, Cutoff(now, staleAfter));
  }

  /** The origin of a character that is there is not listed while something it is owed is under way. */
  lemma OwedOriginStays(b: Book, now: nat, absent: set<uint32>, staleAfter: nat, retained: uint32, origin: string)
    requires CompactionOf(b, now, absent, staleAfter, retained).Some?
    requires !Departed(origin, absent) && HasActive(b.commitments, origin)
    ensures origin !in CompactionOf(b, now, absent, staleAfter, retained).value.origins
  {
    hide GuidOf, HasActive;
    OriginsListed(b.intents, b.commitments, absent, Cutoff(now, staleAfter), origin);
  }

  /** No commitment is listed by itself while it is under way. */
  lemma ActiveStays(b: Book, now: nat, absent: set<uint32>, staleAfter: nat, retained: uint32, c: Commitment)
    requires CompactionOf(b, now, absent, staleAfter, retained).Some?
    requires DistinctIdentities(b.commitments) && c in b.commitments && IsActive(c.state)
    ensures c.identity !in CompactionOf(b, now, absent, staleAfter, retained).value.commitments
  {
    hide GuidOf, HasActive;
    var cutoff := Cutoff(now, staleAfter);
    var origins := OriginsToDrop(b.intents, b.commitments, absent, cutoff);
    CommitmentsListed(b.commitments, origins, cutoff, c.identity);
    forall d | d in b.commitments && d.identity == c.identity
      ensures d == c
    {
      MembersDiffer(b.commitments, c, d);
    }
  }

  // ----- the authority's side

  predicate DistinctIdentities(commitments: seq<Commitment>)
  {
    forall i, j | 0 <= i < j < |commitments| :: commitments[i].identity != commitments[j].identity
  }

  /** What the authority checks of a book before it starts on one: identities are given and unique. */
  predicate BookOk(b: Book)
  {
    && (forall i | i in b.intents :: i.origin != "")
    && (forall i, j | 0 <= i < j < |b.intents| :: b.intents[i].origin != b.intents[j].origin)
    && (forall c | c in b.commitments :: c.identity != "") && DistinctIdentities(b.commitments)
  }

  predicate DistinctStrings(s: seq<string>)
  {
    forall i, j | 0 <= i < j < |s| :: s[i] != s[j]
  }

  /** The checks a compaction must pass to be applied. */
  predicate Compactable(b: Book, command: Command)
  {
    && (forall o | o in command.origins :: o != "" && exists i | i in b.intents :: i.origin == o)
    && DistinctStrings(command.origins) && DistinctStrings(command.commitments)
    && (forall id | id in command.commitments :: id != "" &&
          exists c | c in b.commitments :: c.identity == id && (IsActive(c.state) ==> c.origin in command.origins))
  }

  lemma {:induction false} OriginsDistinct(intents: seq<Intent>, commitments: seq<Commitment>, absent: set<uint32>, cutoff: nat)
    requires forall i, j | 0 <= i < j < |intents| :: intents[i].origin != intents[j].origin
    ensures DistinctStrings(OriginsToDrop(intents, commitments, absent, cutoff))
  {
    if intents == [] {
    } else {
      hide IntentGoes;
      var n := |intents| - 1;
      OriginsDistinct(intents[..n], commitments, absent, cutoff);
      OriginsListed(intents[..n], commitments, absent, cutoff, intents[n].origin);
      var rest := OriginsToDrop(intents[..n], commitments, absent, cutoff);
      assert forall k | 0 <= k < |rest| :: rest[k] in rest;
    }
  }

  lemma {:induction false} CommitmentsDistinct(commitments: seq<Commitment>, origins: seq<string>, cutoff: nat)
    requires DistinctIdentities(commitments)
    ensures DistinctStrings(CommitmentsToDrop(commitments, origins, cutoff))
  {
    if commitments == [] {
    } else {
      hide CommitmentGoes;
      var n := |commitments| - 1;
      CommitmentsDistinct(commitments[..n], origins, cutoff);
      CommitmentsListed(commitments[..n], origins, cutoff, commitments[n].identity);
      var rest := CommitmentsToDrop(commitments[..n], origins, cutoff);
      assert forall k | 0 <= k < |rest| :: rest[k] in rest;
    }
  }

  /** Every compaction built passes the authority's checks. */
  lemma CompactionsAreAccepted(b: Book, now: nat, absent: set<uint32>, staleAfter: nat, retained: uint32)
    requires BookOk(b) && CompactionOf(b, now, absent, staleAfter, retained).Some?
    ensures Compactable(b, CompactionOf(b, now, absent, staleAfter, retained).value)
  {
    var cutoff := Cutoff(now, staleAfter);
    var origins := OriginsToDrop(b.intents, b.commitments, absent, cutoff);
    var commitments := CommitmentsToDrop(b.commitments, origins, cutoff);
    OriginsDistinct(b.intents, b.commitments, absent, cutoff);
    CommitmentsDistinct(b.commitments, origins, cutoff);
    hide IntentGoes, DistinctStrings, DistinctIdentities, OriginsToDrop, CommitmentsToDrop;
    forall o | o in origins
      ensures o != "" && exists i | i in b.intents :: i.origin == o
    {
      OriginsListed(b.intents, b.commitments, absent, cutoff, o);
    }
    forall id | id in commitments
      ensures id != "" && exists c | c in b.commitments :: c.identity == id && (IsActive(c.state) ==> c.origin in origins)
    {
      CommitmentsListed(b.commitments, origins, cutoff, id);
    }
  }

  /** The commitments a compaction drops: those named, and those of dropped origins, by identity. */
  predicate Dropped(b: Book, command: Command, identity: string)
  {
    identity in command.commitments || exists c | c in b.commitments :: c.identity == identity && c.origin in command.origins
  }

  function KeptIntents(intents: seq<Intent>, command: Command): (r: seq<Intent>)
    ensures forall i :: i in r <==> i in intents && i.origin !in command.origins
  {
    if intents == [] then []
    else
      var last := intents[|intents| - 1];
      assert forall i :: i in intents <==> i in intents[..|intents| - 1] || i == last;
      KeptIntents(intents[..|intents| - 1], command) + if last.origin in command.origins then [] else [last]
  }

  function KeptCommitments(b: Book, commitments: seq<Commitment>, command: Command): (r: seq<Commitment>)
    ensures forall c :: c in r <==> c in commitments && !Dropped(b, command, c.identity)
  {
    if commitments == [] then []
    else
      var last := commitments[|commitments| - 1];
      assert forall c :: c in commitments <==> c in commitments[..|commitments| - 1] || c == last;
      KeptCommitments(b, commitments[..|commitments| - 1], command) + if Dropped(b, command, last.identity) then [] else [last]
  }

  predicate NamesDropped(b: Book, command: Command, o: Operation)
  {
    exists id | id in o.commitments :: Dropped(b, command, id)
  }

  /** How much of the log goes: everything up to the last operation that names a dropped commitment. */
  function LogCut(b: Book, command: Command, n: nat): (k: nat)
    requires n <= |b.log|
    ensures k <= n
    ensures forall i | k <= i < n :: !NamesDropped(b, command, b.log[i])
  {
    if n == 0 then 0 else if NamesDropped(b, command, b.log[n - 1]) then n else LogCut(b, command, n - 1)
  }

  function KeptLog(b: Book, command: Command): seq<Operation>
  {
    var rest := b.log[LogCut(b, command, |b.log|)..];
    if command.retainedOperations != 0 && |rest| > command.retainedOperations then rest[|rest| - command.retainedOperations..] else rest
  }

  function Compacted(b: Book, command: Command): Book
  {
    Book(b.revision, KeptLog(b, command), KeptIntents(b.intents, command), KeptCommitments(b, b.commitments, command))
  }

  /** No compaction the authority applies, whoever made it, loses anything under way for an origin that stays. */
  lemma ActiveSurvives(b: Book, command: Command, c: Commitment)
    requires BookOk(b) && Compactable(b, command)
    requires c in b.commitments && (c.state.Admitted? || c.state.PartiallyFulfilled?) && c.origin !in command.origins
    ensures c in Compacted(b, command).commitments
  {
    hide KeptIntents, KeptLog, DistinctIdentities, DistinctStrings;
    forall d | d in b.commitments && d.identity == c.identity
      ensures d == c
    {
      MembersDiffer(b.commitments, c, d);
    }
    assert !Dropped(b, command, c.identity);
  }

  /** What a compaction names is gone, and so is whatever belongs to an origin it names; the rest stays. */
  lemma NamedAreGone(b: Book, command: Command)
    requires BookOk(b)
    ensures var after := Compacted(b, command);
            && (forall i :: i in after.intents <==> i in b.intents && i.origin !in command.origins)
            && (forall c :: c in after.commitments <==>
                  c in b.commitments && c.identity !in command.commitments && c.origin !in command.origins)
  {
    hide KeptLog, DistinctIdentities;
    forall c | c in b.commitments
      ensures Dropped(b, command, c.identity) <==> c.identity in command.commitments || c.origin in command.origins
    {
      forall d | d in b.commitments && d.identity == c.identity
        ensures d == c
      {
        MembersDiffer(b.commitments, c, d);
      }
    }
  }

  lemma ListedSurvives(b: Book, now: nat, absent: set<uint32>, staleAfter: nat, command: Command, origin: string)
    requires BookOk(b) && CompactionOf(b, now, absent, staleAfter, command.retainedOperations) == Some(command)
    requires origin !in command.origins && HasActive(b.commitments, origin)
    ensures HasActive(Compacted(b, command).commitments, origin)
  {
    hide KeptIntents, KeptCommitments, KeptLog, CompactionOf, BookOk, Compactable;
    var c :| c in b.commitments && IsActive(c.state) && c.origin == origin;
    CompactionsAreAccepted(b, now, absent, staleAfter, command.retainedOperations);
    ActiveSurvives(b, command, c);
  }

  /** Compacting a compacted book at the same time lists nothing more, whatever its log has come to. */
  lemma CompactionIsDone(b: Book, now: nat, absent: set<uint32>, staleAfter: nat, command: Command, after: Book)
    requires BookOk(b) && CompactionOf(b, now, absent, staleAfter, command.retainedOperations) == Some(command)
    requires after == Compacted(b, command).(revision := after.revision, log := after.log)
    ensures CompactionOf(after, now, absent, staleAfter, command.retainedOperations) ==
            if LogOverCap(after, command.retainedOperations) then Some(Command(after.revision, [], [], command.retainedOperations)) else None
  {
    hide KeptIntents, KeptCommitments, KeptLog, OriginsToDrop, CommitmentsToDrop, HasActive, GuidOf, BookOk;
    var cutoff := Cutoff(now, staleAfter);
    var origins := OriginsToDrop(after.intents, after.commitments, absent, cutoff);
    forall o | o in origins
      ensures false
    {
      OriginsListed(after.intents, after.commitments, absent, cutoff, o);
      var i :| i in after.intents && i.origin == o && IntentGoes(i, after.commitments, absent, cutoff);
      OriginsListed(b.intents, b.commitments, absent, cutoff, o);
      if HasActive(b.commitments, o) {
        ListedSurvives(b, now, absent, staleAfter, command, o);
      }
    }
    FirstIsIn(origins);
    var commitments := CommitmentsToDrop(after.commitments, [], cutoff);
    forall id | id in commitments
      ensures false
    {
      CommitmentsListed(after.commitments, [], cutoff, id);
      var c :| c in after.commitments && c.identity == id && CommitmentGoes(c, [], cutoff);
      CommitmentsListed(b.commitments, command.origins, cutoff, id);
    }
    FirstIsIn(commitments);
  }

  lemma FirstIsIn(s: seq<string>)
    ensures s == [] || s[0] in s
  {
  }

  // ----- the log

  /** The log is a contiguous suffix of the book's history, so that a lost entry shows. */
  predicate LogWhole(log: seq<Operation>, revision: nat)
  {
    |log| <= revision && forall i | 0 <= i < |log| :: log[i].revision == revision - |log| + 1 + i
  }

  /** Every commitment an entry names is in the book. */
  predicate LogKnown(log: seq<Operation>, commitments: seq<Commitment>)
  {
    forall o, id | o in log && id in o.commitments :: Named(commitments, id)
  }

  predicate Named(commitments: seq<Commitment>, identity: string)
  {
    exists c | c in commitments :: c.identity == identity
  }

  lemma SuffixStaysWhole(log: seq<Operation>, revision: nat, k: nat)
    requires LogWhole(log, revision) && k <= |log|
    ensures LogWhole(log[k..], revision)
  {
  }

  lemma CompactedLogIsWhole(b: Book, command: Command)
    requires LogWhole(b.log, b.revision)
    ensures var after := Compacted(b, command);
            LogWhole(after.log, after.revision) && !LogOverCap(after, command.retainedOperations)
  {
    hide KeptIntents, KeptCommitments, LogCut, LogWhole;
    var k := LogCut(b, command, |b.log|);
    var rest := b.log[k..];
    SuffixStaysWhole(b.log, b.revision, k);
    if command.retainedOperations != 0 && |rest| > command.retainedOperations {
      SuffixStaysWhole(rest, b.revision, |rest| - command.retainedOperations);
    }
  }

  lemma CompactedLogIsKnown(b: Book, command: Command)
    requires LogKnown(b.log, b.commitments)
    ensures var after := Compacted(b, command); LogKnown(after.log, after.commitments)
  {
    hide KeptIntents, KeptCommitments, LogCut, Dropped;
    var k := LogCut(b, command, |b.log|);
    var rest := b.log[k..];
    forall o, id | o in KeptLog(b, command) && id in o.commitments
      ensures Named(KeptCommitments(b, b.commitments, command), id)
    {
      assert o in rest;
      var i :| 0 <= i < |rest| && rest[i] == o;
      assert rest[i] == b.log[k + i] && !NamesDropped(b, command, b.log[k + i]);
      assert Named(b.commitments, id);
      var c :| c in b.commitments && c.identity == id;
      assert c in KeptCommitments(b, b.commitments, command);
    }
  }

  /** A compaction leaves a log a restart accepts: whole, within the cap, and naming nothing dropped. */
  lemma CompactedLogIsSound(b: Book, command: Command)
    requires LogWhole(b.log, b.revision) && LogKnown(b.log, b.commitments)
    ensures var after := Compacted(b, command);
            && LogWhole(after.log, after.revision) && LogKnown(after.log, after.commitments)
            && !LogOverCap(after, command.retainedOperations)
  {
    hide Compacted, LogWhole, LogKnown, LogOverCap;
    CompactedLogIsWhole(b, command);
    CompactedLogIsKnown(b, command);
  }

  lemma {:induction false} CutIsNeeded(b: Book, command: Command, n: nat)
    requires n <= |b.log|
    ensures var k := LogCut(b, command, n); k == 0 || NamesDropped(b, command, b.log[k - 1])
  {
    if n > 0 && !NamesDropped(b, command, b.log[n - 1]) {
      CutIsNeeded(b, command, n - 1);
    }
  }

  /** No more of the log goes than must: it keeps at least any stretch of its end that is within the cap and
      names only commitments that are still in the book. */
  lemma LogKeptIsLongest(b: Book, command: Command, n: nat)
    requires n <= |b.log| && (command.retainedOperations == 0 || |b.log| - n <= command.retainedOperations)
    requires forall j, id | n <= j < |b.log| && id in b.log[j].commitments :: Named(Compacted(b, command).commitments, id)
    ensures var log := Compacted(b, command).log; |b.log| - n <= |log| <= |b.log| && log == b.log[|b.log| - |log|..]
  {
    hide KeptIntents, LogCut, Dropped;
    CutIsNeeded(b, command, |b.log|);
    forall j | n <= j < |b.log|
      ensures !NamesDropped(b, command, b.log[j])
    {
      forall id | id in b.log[j].commitments
        ensures !Dropped(b, command, id)
      {
        assert Named(Compacted(b, command).commitments, id);
      }
    }
    assert LogCut(b, command, |b.log|) <= n;
  }

  lemma {:induction false} IntentsShrink(intents: seq<Intent>, command: Command)
    ensures |KeptIntents(intents, command)| <= |intents|
    ensures (exists i | i in intents :: i.origin in command.origins) ==> |KeptIntents(intents, command)| < |intents|
  {
    if intents == [] {
    } else {
      IntentsShrink(intents[..|intents| - 1], command);
      assert forall i :: i in intents <==> i in intents[..|intents| - 1] || i == intents[|intents| - 1];
    }
  }

  lemma {:induction false} CommitmentsShrink(b: Book, commitments: seq<Commitment>, command: Command)
    ensures |KeptCommitments(b, commitments, command)| <= |commitments|
    ensures (exists c | c in commitments :: Dropped(b, command, c.identity)) ==>
              |KeptCommitments(b, commitments, command)| < |commitments|
  {
    if commitments == [] {
    } else {
      hide Dropped;
      CommitmentsShrink(b, commitments[..|commitments| - 1], command);
      assert forall c :: c in commitments <==> c in commitments[..|commitments| - 1] || c == commitments[|commitments| - 1];
    }
  }

  function Size(b: Book): nat { |b.log| + |b.intents| + |b.commitments| }

  lemma LogShrinks(b: Book, command: Command)
    ensures |KeptLog(b, command)| <= |b.log|
    ensures LogOverCap(b, command.retainedOperations) ==> |KeptLog(b, command)| < |b.log|
  {
    hide LogCut;
  }

  lemma OriginsTakeIntents(b: Book, command: Command)
    requires Compactable(b, command)
    ensures |KeptIntents(b.intents, command)| <= |b.intents|
    ensures command.origins != [] ==> |KeptIntents(b.intents, command)| < |b.intents|
  {
    hide KeptIntents, DistinctStrings;
    IntentsShrink(b.intents, command);
    FirstIsIn(command.origins);
  }

  lemma NamesTakeCommitments(b: Book, command: Command)
    requires Compactable(b, command)
    ensures |KeptCommitments(b, b.commitments, command)| <= |b.commitments|
    ensures command.commitments != [] ==> |KeptCommitments(b, b.commitments, command)| < |b.commitments|
  {
    hide KeptCommitments, DistinctStrings;
    CommitmentsShrink(b, b.commitments, command);
    FirstIsIn(command.commitments);
    if command.commitments != [] {
      var c :| c in b.commitments && c.identity == command.commitments[0];
      assert Dropped(b, command, c.identity);
    }
  }

  /** A compaction that was built makes the book smaller, so it is never turned away as idle. */
  lemma CompactionShrinks(b: Book, now: nat, absent: set<uint32>, staleAfter: nat, command: Command)
    requires BookOk(b) && CompactionOf(b, now, absent, staleAfter, command.retainedOperations) == Some(command)
    ensures Size(Compacted(b, command)) < Size(b)
  {
    hide KeptIntents, KeptCommitments, KeptLog, OriginsToDrop, CommitmentsToDrop, BookOk, Compactable;
    CompactionsAreAccepted(b, now, absent, staleAfter, command.retainedOperations);
    OriginsTakeIntents(b, command);
    NamesTakeCommitments(b, command);
    LogShrinks(b, command);
  }
}
