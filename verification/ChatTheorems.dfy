/** Folding keeps every block and its role, splitting keeps them in order, and folding undoes splitting. */
module ChatTheorems {
  import opened Wrappers
  import opened Sequences
  import opened ChatTurns

  // ---------------------------------------------------------------------------
  // Blocks with their roles
  // ---------------------------------------------------------------------------

  function Tags<B>(role: Role, blocks: seq<B>): (tags: seq<(Role, B)>)
    ensures |tags| == |blocks| && forall i :: 0 <= i < |blocks| ==> tags[i] == (role, blocks[i])
  {
    seq(|blocks|, i requires 0 <= i < |blocks| => (role, blocks[i]))
  }

  /** All blocks of a conversation, each with its role. */
  function Tagged<B>(turns: seq<Turn<B>>): seq<(Role, B)> {
    if turns == [] then []
    else Tagged(turns[..|turns| - 1]) + Tags(turns[|turns| - 1].role, turns[|turns| - 1].blocks)
  }

  /** No two neighbouring turns share a role. */
  ghost predicate Compact<B>(turns: seq<Turn<B>>) {
    forall i :: 0 <= i < |turns| - 1 ==> turns[i].role != turns[i + 1].role
  }

  ghost predicate NonEmpty<B>(turns: seq<Turn<B>>) {
    forall i :: 0 <= i < |turns| ==> turns[i].blocks != []
  }

  lemma TaggedStep<B>(turns: seq<Turn<B>>, turn: Turn<B>)
    ensures Tagged(turns + [turn]) == Tagged(turns) + Tags(turn.role, turn.blocks)
  {
    assert (turns + [turn])[..|turns|] == turns;
  }

  lemma {:induction false} TaggedConcat<B>(a: seq<Turn<B>>, b: seq<Turn<B>>)
    ensures Tagged(a + b) == Tagged(a) + Tagged(b)
  {
    hide Tags;
    if b == [] {
      assert a + b == a;
      assert Tagged(b) == [];
    } else {
      hide Tagged;
      var front, last := b[..|b| - 1], b[|b| - 1];
      TaggedConcat(a, front);
      assert a + b == (a + front) + [last] && b == front + [last];
      TaggedStep(a + front, last);
      TaggedStep(front, last);
      ConcatIsAssociative(Tagged(a), Tagged(front), Tags(last.role, last.blocks));
    }
  }

  lemma TagsConcat<B>(role: Role, a: seq<B>, b: seq<B>)
    ensures Tags(role, a + b) == Tags(role, a) + Tags(role, b)
  {
  }

  // ---------------------------------------------------------------------------
  // Folding
  // ---------------------------------------------------------------------------

  lemma AbsorbKeeps<B>(folded: seq<Turn<B>>, turn: Turn<B>)
    requires Compact(folded)
    ensures Compact(Absorb(folded, turn))
    ensures Tagged(Absorb(folded, turn)) == Tagged(folded) + Tags(turn.role, turn.blocks)
  {
    if folded != [] && folded[|folded| - 1].role == turn.role {
      var front, last := folded[..|folded| - 1], folded[|folded| - 1];
      TaggedStep(front, Turn(turn.role, last.blocks + turn.blocks));
      TagsConcat(turn.role, last.blocks, turn.blocks);
    } else {
      TaggedStep(folded, turn);
    }
  }

  /** Folding leaves no two neighbours with one role, and keeps every block, its role and its place. */
  lemma {:induction false} FoldingKeepsBlocks<B>(turns: seq<Turn<B>>)
    ensures Compact(Folded(turns)) && Tagged(Folded(turns)) == Tagged(turns)
  {
    if turns != [] {
      FoldingKeepsBlocks(turns[..|turns| - 1]);
      AbsorbKeeps(Folded(turns[..|turns| - 1]), turns[|turns| - 1]);
    }
  }

  /** Turns are left alone exactly when there is nothing to fold; the count alone tells. */
  lemma {:induction false} FixedExactlyWhenCompact<B>(turns: seq<Turn<B>>)
    ensures |Folded(turns)| == |turns| <==> Compact(turns)
    ensures Compact(turns) ==> Folded(turns) == turns
  {
    if turns != [] {
      var front, last := turns[..|turns| - 1], turns[|turns| - 1];
      FixedExactlyWhenCompact(front);
      assert turns == front + [last];
      if Compact(front) {
        assert front != [] ==> turns[|front| - 1] == front[|front| - 1];
        assert Compact(turns) <==> (front == [] || front[|front| - 1].role != last.role);
      } else {
        LooseFront(turns);
      }
    }
  }

  lemma LooseFront<B>(turns: seq<Turn<B>>)
    requires turns != [] && !Compact(turns[..|turns| - 1])
    ensures !Compact(turns)
  {
    var front := turns[..|turns| - 1];
    var i :| 0 <= i < |front| - 1 && front[i].role == front[i + 1].role;
    assert turns[i].role == turns[i + 1].role;
  }

  /** The conversation rebuilt from its tagged blocks alone. */
  function Regrouped<B>(tags: seq<(Role, B)>): seq<Turn<B>> {
    if tags == [] then []
    else Absorb(Regrouped(tags[..|tags| - 1]), Turn(tags[|tags| - 1].0, [tags[|tags| - 1].1]))
  }

  /** Absorbing blocks one by one is absorbing them together. */
  lemma {:induction false} RegroupedTurn<B>(tags: seq<(Role, B)>, role: Role, blocks: seq<B>)
    requires blocks != []
    ensures Regrouped(tags + Tags(role, blocks)) == Absorb(Regrouped(tags), Turn(role, blocks))
    decreases |blocks|
  {
    hide Regrouped, Absorb;
    var front, last := blocks[..|blocks| - 1], blocks[|blocks| - 1];
    assert blocks == front + [last];
    TagsConcat(role, front, [last]);
    assert tags + Tags(role, blocks) == (tags + Tags(role, front)) + [(role, last)];
    RegroupedStep(tags + Tags(role, front), role, last);
    if front == [] {
      assert tags + Tags(role, front) == tags;
    } else {
      RegroupedTurn(tags, role, front);
      AbsorbTwice(Regrouped(tags), role, front, [last]);
    }
  }

  lemma RegroupedStep<B>(tags: seq<(Role, B)>, role: Role, last: B)
    ensures Regrouped(tags + [(role, last)]) == Absorb(Regrouped(tags), Turn(role, [last]))
  {
    assert (tags + [(role, last)])[..|tags|] == tags;
  }

  lemma AbsorbTwice<B>(folded: seq<Turn<B>>, role: Role, a: seq<B>, b: seq<B>)
    ensures Absorb(Absorb(folded, Turn(role, a)), Turn(role, b)) == Absorb(folded, Turn(role, a + b))
  {
    if folded != [] && folded[|folded| - 1].role == role {
      JoinTwice(folded[..|folded| - 1], role, folded[|folded| - 1].blocks + a, b);
      assert folded[|folded| - 1].blocks + a + b == folded[|folded| - 1].blocks + (a + b);
    } else {
      JoinTwice(folded, role, a, b);
    }
  }

  lemma JoinTwice<B>(front: seq<Turn<B>>, role: Role, a: seq<B>, b: seq<B>)
    ensures Absorb(front + [Turn(role, a)], Turn(role, b)) == front + [Turn(role, a + b)]
  {
    assert (front + [Turn(role, a)])[..|front|] == front;
  }

  /** Folding turns with content depends on nothing but their tagged blocks. */
  lemma {:induction false} FoldedIsRegrouped<B>(turns: seq<Turn<B>>)
    requires NonEmpty(turns)
    ensures Folded(turns) == Regrouped(Tagged(turns))
  {
    hide Absorb;
    if turns != [] {
      var front, last := turns[..|turns| - 1], turns[|turns| - 1];
      assert forall i :: 0 <= i < |front| ==> front[i] == turns[i];
      FoldedIsRegrouped(front);
      RegroupedTurn(Tagged(front), last.role, last.blocks);
    }
  }

  /** The folded form is the only one: turns with content and without equal neighbours are determined by
      their tagged blocks. */
  lemma {:induction false} CompactFormIsUnique<B>(a: seq<Turn<B>>, b: seq<Turn<B>>)
    requires NonEmpty(a) && NonEmpty(b) && Compact(a) && Compact(b) && Tagged(a) == Tagged(b)
    ensures a == b
  {
    FixedExactlyWhenCompact(a);
    FixedExactlyWhenCompact(b);
    FoldedIsRegrouped(a);
    FoldedIsRegrouped(b);
  }

  // ---------------------------------------------------------------------------
  // Folding a request body
  // ---------------------------------------------------------------------------

  lemma {:induction false} WireReadsBack<B>(turns: seq<Turn<B>>, textBlock: string -> B)
    ensures TurnsOf(ToWire(turns), textBlock) == Some(turns)
  {
    if turns != [] {
      WireReadsBack(turns[..|turns| - 1], textBlock);
      assert ToWire(turns)[..|turns| - 1] == ToWire(turns[..|turns| - 1]);
      assert turns[..|turns| - 1] + [turns[|turns| - 1]] == turns;
    }
  }

  /** Folding a body twice is folding it once. */
  lemma {:induction false} FoldingIsIdempotent<B>(body: Body<B>, textBlock: string -> B)
    requires FoldedBody(body, textBlock).Some?
    ensures FoldedBody(FoldedBody(body, textBlock).value, textBlock) == FoldedBody(body, textBlock)
  {
    hide Folded, TurnsOf, ToWire;
    if body.Messages? {
      var turns := TurnsOf(body.messages, textBlock).value;
      var folded := Folded(turns);
      FoldingKeepsBlocks(turns);
      FixedExactlyWhenCompact(folded);
      WireReadsBack(folded, textBlock);
      WireLength(folded);
    }
  }

  lemma WireLength<B>(turns: seq<Turn<B>>)
    ensures |ToWire(turns)| == |turns|
  {
  }

  /** A body is rewritten exactly when two neighbouring messages share a role; its blocks always stay. */
  lemma {:induction false} RewrittenExactlyWhenNeeded<B>(messages: seq<WireMessage<B>>, textBlock: string -> B)
    requires TurnsOf(messages, textBlock).Some?
    ensures FoldedBody(Messages(messages), textBlock) == Some(Messages(messages)) <==>
            Compact(TurnsOf(messages, textBlock).value)
    ensures var after := FoldedBody(Messages(messages), textBlock);
            && after.Some? && after.value.Messages? && TurnsOf(after.value.messages, textBlock).Some?
            && Compact(TurnsOf(after.value.messages, textBlock).value)
            && Tagged(TurnsOf(after.value.messages, textBlock).value) == Tagged(TurnsOf(messages, textBlock).value)
  {
    hide Folded, TurnsOf, ToWire, Compact, Tagged;
    var turns := TurnsOf(messages, textBlock).value;
    FoldingKeepsBlocks(turns);
    FixedExactlyWhenCompact(turns);
    WireReadsBack(Folded(turns), textBlock);
    WireLength(Folded(turns));
  }

  /** What one wire message says, block by block: a text is one text block, and null is an empty text. */
  ghost function Says<B>(message: WireMessage<B>, textBlock: string -> B): seq<(Role, B)> {
    match message.content
    case Text(text) => [(message.role, textBlock(text))]
    case Null => [(message.role, textBlock(""))]
    case Blocks(blocks) => Tags(message.role, blocks)
    case Malformed => []
  }

  /** What a list of wire messages says. */
  ghost function Said<B>(messages: seq<WireMessage<B>>, textBlock: string -> B): seq<(Role, B)> {
    if messages == [] then []
    else Said(messages[..|messages| - 1], textBlock) + Says(messages[|messages| - 1], textBlock)
  }

  ghost predicate Readable<B>(messages: seq<WireMessage<B>>) {
    forall i :: 0 <= i < |messages| ==> !messages[i].content.Malformed?
  }

  ghost predicate RolesAlternate<B>(messages: seq<WireMessage<B>>) {
    forall i :: 0 <= i < |messages| - 1 ==> messages[i].role != messages[i + 1].role
  }

  lemma {:induction false} TurnsSay<B>(messages: seq<WireMessage<B>>, textBlock: string -> B)
    requires Readable(messages)
    ensures TurnsOf(messages, textBlock).Some?
    ensures Tagged(TurnsOf(messages, textBlock).value) == Said(messages, textBlock)
    ensures forall i :: 0 <= i < |messages| ==> TurnsOf(messages, textBlock).value[i].role == messages[i].role
  {
    if messages != [] {
      var front := messages[..|messages| - 1];
      TurnsSay(front, textBlock);
      var last := TurnsOf(messages, textBlock).value[|front|];
      assert TurnsOf(messages, textBlock).value == TurnsOf(front, textBlock).value + [last];
      TaggedStep(TurnsOf(front, textBlock).value, last);
    }
  }

  /** Folding a body fails exactly when some of it cannot be read, and never changes what the conversation
      says: afterwards every text, null and block content is there as the same blocks, under the same roles
      and in the same order, and roles alternate. The body stays untouched exactly when they did before. */
  lemma {:induction false} FoldingChangesNothingSaid<B>(messages: seq<WireMessage<B>>, textBlock: string -> B)
    ensures FoldedBody(Messages(messages), textBlock).Some? <==> Readable(messages)
    ensures Readable(messages) ==>
              var after := FoldedBody(Messages(messages), textBlock).value;
              && after.Messages? && Readable(after.messages) && RolesAlternate(after.messages)
              && Said(after.messages, textBlock) == Said(messages, textBlock)
              && (after == Messages(messages) <==> RolesAlternate(messages))
  {
    hide Folded, TurnsOf, ToWire, Tagged, Said;
    if Readable(messages) {
      TurnsSay(messages, textBlock);
      var turns := TurnsOf(messages, textBlock).value;
      assert RolesAlternate(messages) <==> Compact(turns);
      FoldingKeepsBlocks(turns);
      FixedExactlyWhenCompact(turns);
      WireReadsBack(Folded(turns), textBlock);
      WireIsReadable(Folded(turns));
      WireLength(Folded(turns));
      TurnsSay(ToWire(Folded(turns)), textBlock);
    }
  }

  lemma WireIsReadable<B>(turns: seq<Turn<B>>)
    ensures Readable(ToWire(turns))
    ensures Compact(turns) ==> RolesAlternate(ToWire(turns))
  {
  }

  // ---------------------------------------------------------------------------
  // Splitting
  // ---------------------------------------------------------------------------

  /** Every part after a tool call is a tool call. */
  ghost predicate CallsLast(parts: seq<Part>) {
    forall i, j :: 0 <= i < j < |parts| && parts[i].CallPart? ==> parts[j].CallPart?
  }

  lemma {:induction false} NoneOfKind(parts: seq<Part>, wanted: bool)
    requires forall i :: 0 <= i < |parts| ==> parts[i].CallPart? != wanted
    ensures Calls(parts, wanted) == [] && Calls(parts, !wanted) == parts
  {
    if parts != [] {
      NoneOfKind(parts[..|parts| - 1], wanted);
      assert parts[..|parts| - 1] + [parts[|parts| - 1]] == parts;
    }
  }

  /** Separating calls from other parts restores the parts exactly when the calls came last. */
  lemma {:induction false} SeparationIsIdentity(parts: seq<Part>)
    ensures Calls(parts, false) + Calls(parts, true) == parts <==> CallsLast(parts)
  {
    if Calls(parts, false) + Calls(parts, true) == parts {
      forall i, j | 0 <= i < j < |parts| && parts[i].CallPart? ensures parts[j].CallPart? {
        assert parts[i] == (Calls(parts, false) + Calls(parts, true))[i];
        assert parts[j] == (Calls(parts, false) + Calls(parts, true))[j];
      }
    }
    if CallsLast(parts) && parts != [] {
      var front, last := parts[..|parts| - 1], parts[|parts| - 1];
      assert parts == front + [last];
      SeparationIsIdentity(front);
      if !last.CallPart? {
        assert forall i :: 0 <= i < |front| ==> front[i] == parts[i];
        NoneOfKind(front, true);
      }
    }
  }

  lemma {:induction false} TaggedSingles(role: Role, parts: seq<Part>)
    ensures Tagged(Singles(role, parts)) == Tags(role, parts)
  {
    if parts != [] {
      var front, last := parts[..|parts| - 1], parts[|parts| - 1];
      TaggedSingles(role, front);
      assert Singles(role, parts) == Singles(role, front) + [Turn(role, [last])];
      TaggedStep(Singles(role, front), Turn(role, [last]));
      assert front + [last] == parts;
      TagsConcat(role, front, [last]);
    }
  }

  lemma TaggedAlone<B>(turn: Turn<B>)
    ensures Tagged([turn]) == Tags(turn.role, turn.blocks)
  {
    assert [turn][..0] == [];
    assert Tagged<B>([]) == [];
  }

  lemma {:induction false} TaggedSplit(role: Role, parts: seq<Part>)
    ensures Tagged(Split(role, parts)) == Tags(role, Calls(parts, false) + Calls(parts, true))
  {
    hide Calls;
    var text, calls := Calls(parts, false), Calls(parts, true);
    TaggedSingles(role, calls);
    TagsConcat(role, text, calls);
    if text == [] {
      assert Split(role, parts) == Singles(role, calls);
      assert text + calls == calls;
    } else {
      TaggedConcat([Turn(role, text)], Singles(role, calls));
      TaggedAlone(Turn(role, text));
    }
  }

  /** Splitting keeps the blocks of a turn in order exactly when its calls come last. */
  lemma {:induction false} SplittingKeepsBlocksExactlyWhen(role: Role, parts: seq<Part>)
    ensures Tagged(Split(role, parts)) == Tagged([Turn(role, parts)]) <==> CallsLast(parts)
  {
    hide Calls, CallsLast, Split;
    TaggedSplit(role, parts);
    TaggedAlone(Turn(role, parts));
    SeparationIsIdentity(parts);
    SameTags(role, Calls(parts, false) + Calls(parts, true), parts);
  }

  lemma SameTags<B>(role: Role, a: seq<B>, b: seq<B>)
    ensures Tags(role, a) == Tags(role, b) <==> a == b
  {
    if Tags(role, a) == Tags(role, b) {
      assert |a| == |b|;
      forall i | 0 <= i < |a| ensures a[i] == b[i] {
        assert Tags(role, a)[i] == Tags(role, b)[i];
      }
    }
  }

  /** Every message of a split reply has a single part, as the adapter needs, exactly when at most one
      part was not a call; a reply with both text and image keeps a turn of two parts. */
  lemma {:induction false} SplitTurnsAreSingleExactlyWhen(role: Role, parts: seq<Part>)
    ensures (forall i :: 0 <= i < |Split(role, parts)| ==> |Split(role, parts)[i].blocks| == 1) <==>
              |Calls(parts, false)| <= 1
  {
    hide Calls;
    var split := Split(role, parts);
    if Calls(parts, false) != [] {
      assert split[0] == Turn(role, Calls(parts, false));
    }
  }

  /** A converted message puts its calls last, and is never empty. */
  lemma PartsHaveCallsLast(provider: Provider, message: Message)
    requires PartsOf(provider, message).Success?
    ensures CallsLast(PartsOf(provider, message).value)
  {
  }

  /** A reply has more than one part besides its calls exactly when it has both text and an image. */
  lemma {:induction false} TextAndImage(provider: Provider, message: Message)
    requires PartsOf(provider, message).Success? && !message.role.ToolRole?
    ensures |Calls(PartsOf(provider, message).value, false)| <= 1 <==> message.text == "" || message.image == []
  {
    var head := (if message.text != "" then [TextPart(message.text)] else [])
                + (if message.image != [] then [ImagePart(provider, message.image)] else []);
    CallsOfConcat(head, CallParts(message.toolCalls));
    NoneOfKind(head, true);
    NoneOfKind(CallParts(message.toolCalls), false);
  }

  lemma {:induction false} CallsOfConcat(a: seq<Part>, b: seq<Part>)
    ensures Calls(a + b, false) == Calls(a, false) + Calls(b, false)
  {
    if b == [] {
      assert a + b == a;
    } else {
      assert (a + b)[..|a + b| - 1] == a + b[..|b| - 1];
      CallsOfConcat(a, b[..|b| - 1]);
    }
  }

  /** A reply that a chat can hold: text, an image, and a call. */
  const ILLUSTRATED := Message(AssistantRole, "text", [0], [ToolCall("id", "name", "{}")], "")

  /** Its first message after splitting has two parts, of which the adapter sends only one. */
  lemma {:induction false} IllustratedReplyKeepsTwoParts()
    ensures ConvertedAll(Anthropic, true, [ILLUSTRATED]).Success?
    ensures ConvertedAll(Anthropic, true, [ILLUSTRATED]).value != []
    ensures |ConvertedAll(Anthropic, true, [ILLUSTRATED]).value[0].blocks| == 2
  {
    assert |ILLUSTRATED.text| == 4 && |ILLUSTRATED.image| == 1;
    var head := [TextPart(ILLUSTRATED.text)] + [ImagePart(Anthropic, ILLUSTRATED.image)];
    var parts := head + CallParts(ILLUSTRATED.toolCalls);
    assert PartsOf(Anthropic, ILLUSTRATED) == Success(parts);
    CallsOfConcat(head, CallParts(ILLUSTRATED.toolCalls));
    NoneOfKind(head, true);
    NoneOfKind(CallParts(ILLUSTRATED.toolCalls), false);
    assert Calls(parts, false) == head;
    assert Converted(Anthropic, true, ILLUSTRATED) == Success(Split(AssistantRole, parts));
    NothingConverted(Anthropic, true);
    assert [ILLUSTRATED][..0] == [];
  }

  // ---------------------------------------------------------------------------
  // Folding undoes splitting
  // ---------------------------------------------------------------------------

  /** The adapter's own names for the roles; tool replies, for one, become user turns. */
  function Renamed<B>(turns: seq<Turn<B>>, wireRole: Role -> Role): (renamed: seq<Turn<B>>)
    ensures |renamed| == |turns|
    ensures forall i :: 0 <= i < |turns| ==> renamed[i] == Turn(wireRole(turns[i].role), turns[i].blocks)
  {
    seq(|turns|, i requires 0 <= i < |turns| => Turn(wireRole(turns[i].role), turns[i].blocks))
  }

  /** Two conversations with the same tagged blocks and no empty turn. */
  ghost predicate Alike(a: seq<Turn<Part>>, b: seq<Turn<Part>>) {
    NonEmpty(a) && NonEmpty(b) && Tagged(a) == Tagged(b)
  }

  lemma SplitIsAlike(role: Role, parts: seq<Part>)
    requires parts != [] && CallsLast(parts)
    ensures Alike(Split(role, parts), [Turn(role, parts)])
  {
    SplittingKeepsBlocksExactlyWhen(role, parts);
  }

  lemma AlikeConcat(a: seq<Turn<Part>>, b: seq<Turn<Part>>, c: seq<Turn<Part>>, d: seq<Turn<Part>>)
    requires Alike(a, b) && Alike(c, d)
    ensures Alike(a + c, b + d)
  {
    TaggedConcat(a, c);
    TaggedConcat(b, d);
  }

  lemma {:induction false} ConvertedAlike(provider: Provider, messages: seq<Message>)
    ensures match (ConvertedAll(provider, true, messages), ConvertedAll(provider, false, messages))
            case (Success(split), Success(whole)) => Alike(split, whole)
            case (Failure(a), Failure(b)) => a == b
            case _ => false
  {
    hide Split, Tagged, NonEmpty, PartsOf, CallsLast;
    if messages == [] {
      EmptyIsAlike();
    } else {
      ConvertedAlike(provider, messages[..|messages| - 1]);
      ConvertedOneAlike(provider, messages[|messages| - 1]);
      match (ConvertedAll(provider, true, messages), ConvertedAll(provider, false, messages)) {
        case (Success(split), Success(whole)) =>
          AlikeConcat(ConvertedAll(provider, true, messages[..|messages| - 1]).value,
                      ConvertedAll(provider, false, messages[..|messages| - 1]).value,
                      Converted(provider, true, messages[|messages| - 1]).value, Converted(provider, false,
                              messages[|messages| - 1]).value);
        case _ =>
      }
    }
  }

  lemma EmptyIsAlike()
    ensures Alike([], [])
  {
  }

  lemma ConvertedOneAlike(provider: Provider, message: Message)
    ensures match (Converted(provider, true, message), Converted(provider, false, message))
            case (Success(split), Success(whole)) => Alike(split, whole)
            case (Failure(a), Failure(b)) => a == b
            case _ => false
  {
    hide Split, Tagged, PartsOf, CallsLast;
    if PartsOf(provider, message).Success? {
      PartsHaveCallsLast(provider, message);
      var parts := PartsOf(provider, message).value;
      if parts != [] {
        SplitIsAlike(message.role, parts);
      }
    }
  }

  lemma {:induction false} TaggedRenamed<B>(turns: seq<Turn<B>>, wireRole: Role -> Role)
    ensures |Tagged(Renamed(turns, wireRole))| == |Tagged(turns)|
    ensures forall i :: 0 <= i < |Tagged(turns)| ==>
              Tagged(Renamed(turns, wireRole))[i] == (wireRole(Tagged(turns)[i].0), Tagged(turns)[i].1)
  {
    if turns != [] {
      var front := turns[..|turns| - 1];
      TaggedRenamed(front, wireRole);
      assert Renamed(turns, wireRole)[..|turns| - 1] == Renamed(front, wireRole);
    }
  }

  /** Splitting is invisible on the wire: whatever names the adapter gives the roles, folding the split
      conversation gives the same turns as folding the unsplit one, and both fail alike. */
  lemma {:induction false} FoldingUndoesSplitting(provider: Provider, messages: seq<Message>, wireRole: Role -> Role)
    ensures match (ConvertedAll(provider, true, messages), ConvertedAll(provider, false, messages))
            case (Success(split), Success(whole)) => Folded(Renamed(split, wireRole)) ==
                Folded(Renamed(whole, wireRole))
            case (Failure(a), Failure(b)) => a == b
            case _ => false
  {
    hide ConvertedAll, Folded, Tagged, Regrouped;
    ConvertedAlike(provider, messages);
    match (ConvertedAll(provider, true, messages), ConvertedAll(provider, false, messages)) {
      case (Success(split), Success(whole)) =>
        TaggedRenamed(split, wireRole);
        TaggedRenamed(whole, wireRole);
        assert Tagged(Renamed(split, wireRole)) == Tagged(Renamed(whole, wireRole));
        FoldedIsRegrouped(Renamed(split, wireRole));
        FoldedIsRegrouped(Renamed(whole, wireRole));
      case _ =>
    }
  }
}
