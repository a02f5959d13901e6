/** Chat turns on their way to a provider: converting explore messages, splitting assistant replies for
    one adapter, and folding turns of one role back together on the wire. */
module ChatTurns {
  import opened Wrappers

  // ---------------------------------------------------------------------------
  // Messages
  // ---------------------------------------------------------------------------

  datatype Provider = Anthropic | OtherProvider(name: string)

  datatype Role = SystemRole | UserRole | AssistantRole | ToolRole | UnknownRole(name: string)

  datatype ToolCall = ToolCall(id: string, name: string, arguments: string)

  datatype Message = Message(role: Role, text: string, image: seq<bv8>, toolCalls: seq<ToolCall>, toolCallId: string)

  datatype Part =
    | TextPart(text: string)
    | ImagePart(provider: Provider, image: seq<bv8>)
    | CallPart(call: ToolCall)
    | ReplyPart(toolCallId: string, content: string)

  /** A turn: a role and its content blocks. */
  datatype Turn<B> = Turn(role: Role, blocks: seq<B>)

  datatype ChatError = UnknownRoleError | MissingToolCallId | NoContent

  // ---------------------------------------------------------------------------
  // Splitting
  // ---------------------------------------------------------------------------

  /** The parts that are, or are not, tool calls, in order. */
  function Calls(parts: seq<Part>, wanted: bool): (chosen: seq<Part>)
    ensures |chosen| <= |parts| && forall i :: 0 <= i < |chosen| ==> chosen[i].CallPart? == wanted
  {
    if parts == [] then []
    else
      var last := parts[|parts| - 1];
      Calls(parts[..|parts| - 1], wanted) + (if last.CallPart? == wanted then [last] else [])
  }

  function Singles(role: Role, parts: seq<Part>): seq<Turn<Part>> {
    seq(|parts|, i requires 0 <= i < |parts| => Turn(role, [parts[i]]))
  }

  function Split(role: Role, parts: seq<Part>): seq<Turn<Part>> {
    (if Calls(parts, false) == [] then [] else [Turn(role, Calls(parts, false))]) + Singles(role, Calls(parts, true))
  }

  method SplitAssistantParts(role: Role, parts: seq<Part>) returns (split: seq<Turn<Part>>)
    ensures split == Split(role, parts)
  {
    hide Calls;
    split := [];
    var text: seq<Part> := [];
    CallsOfNone(role);
    for i := 0 to |parts|
      invariant text == Calls(parts[..i], false)
    {
      CallsStep(role, parts, i);
      if !parts[i].CallPart? {
        text := text + [parts[i]];
      }
    }
    assert parts[..|parts|] == parts;
    if |text| > 0 {
      split := split + [Turn(role, text)];
    }
    ghost var head := split;
    for i := 0 to |parts|
      invariant split == head + Singles(role, Calls(parts[..i], true))
    {
      CallsStep(role, parts, i);
      if parts[i].CallPart? {
        split := split + [Turn(role, [parts[i]])];
      }
    }
  }

  lemma CallsOfNone(role: Role)
    ensures Calls([], true) == [] == Calls([], false) && Singles(role, []) == []
  {
  }

  lemma CallsStep(role: Role, parts: seq<Part>, i: nat)
    requires i < |parts|
    ensures forall wanted: bool :: Calls(parts[..i + 1], wanted) ==
              Calls(parts[..i], wanted) + (if parts[i].CallPart? == wanted then [parts[i]] else [])
    ensures Singles(role, Calls(parts[..i + 1], true)) ==
            Singles(role, Calls(parts[..i], true)) + (if parts[i].CallPart? then [Turn(role, [parts[i]])] else [])
  {
    assert parts[..i + 1][..i] == parts[..i];
  }

  // ---------------------------------------------------------------------------
  // Converting
  // ---------------------------------------------------------------------------

  function PartsOf(provider: Provider, message: Message): Result<seq<Part>, ChatError> {
    if message.role.ToolRole? then
      if message.toolCallId == "" then Failure(MissingToolCallId)
      else Success([ReplyPart(message.toolCallId, message.text)])
    else
      Success((if message.text != "" then [TextPart(message.text)] else [])
              + (if message.image != [] then [ImagePart(provider, message.image)] else [])
              + CallParts(message.toolCalls))
  }

  function CallParts(calls: seq<ToolCall>): (parts: seq<Part>)
    ensures |parts| == |calls| && forall i :: 0 <= i < |calls| ==> parts[i] == CallPart(calls[i])
  {
    seq(|calls|, i requires 0 <= i < |calls| => CallPart(calls[i]))
  }

  /** The turns one message becomes; `splits` tells whether assistant replies with calls are split. */
  function Converted(provider: Provider, splits: bool, message: Message): Result<seq<Turn<Part>>, ChatError> {
    if message.role.UnknownRole? then Failure(UnknownRoleError)
    else match PartsOf(provider, message)
      case Failure(e) => Failure(e)
      case Success(parts) =>
        if parts == [] then Failure(NoContent)
        else if splits && message.role.AssistantRole? && message.toolCalls != []
            then Success(Split(message.role, parts))
        else Success([Turn(message.role, parts)])
  }

  /** All messages in order, or the error of the first that cannot be converted. */
  function ConvertedAll(provider: Provider, splits: bool, messages: seq<Message>): Result<seq<Turn<Part>>, ChatError> {
    if messages == [] then Success([])
    else match ConvertedAll(provider, splits, messages[..|messages| - 1])
      case Failure(e) => Failure(e)
      case Success(before) =>
        match Converted(provider, splits, messages[|messages| - 1])
        case Failure(e) => Failure(e)
        case Success(turns) => Success(before + turns)
  }

  method ChatMessages(provider: Provider, messages: seq<Message>)
    returns (converted: Result<seq<Turn<Part>>, ChatError>)
    ensures converted == ConvertedAll(provider, provider.Anthropic?, messages)
  {
    hide Split, ConvertedAll;
    var turns: seq<Turn<Part>> := [];
    NothingConverted(provider, provider.Anthropic?);
    for i := 0 to |messages|
      invariant ConvertedAll(provider, provider.Anthropic?, messages[..i]) == Success(turns)
    {
      var message := messages[i];
      ConvertedStep(provider, provider.Anthropic?, messages, i);
      if message.role.UnknownRole? {
        FailsAtPrefix(provider, provider.Anthropic?, messages, i + 1);
        return Failure(UnknownRoleError);
      }
      var parts: seq<Part> := [];
      if message.role.ToolRole? {
        if message.toolCallId == "" {
          FailsAtPrefix(provider, provider.Anthropic?, messages, i + 1);
          return Failure(MissingToolCallId);
        }
        parts := [ReplyPart(message.toolCallId, message.text)];
      } else {
        if message.text != "" {
          parts := parts + [TextPart(message.text)];
        }
        if |message.image| > 0 {
          parts := parts + [ImagePart(provider, message.image)];
        }
        ghost var head := parts;
        assert head == (if message.text != "" then [TextPart(message.text)] else [])
                       + (if message.image != [] then [ImagePart(provider, message.image)] else []);
        for j := 0 to |message.toolCalls|
          invariant parts == head + CallParts(message.toolCalls[..j])
        {
          assert CallParts(message.toolCalls[..j + 1]) ==
              CallParts(message.toolCalls[..j]) + [CallPart(message.toolCalls[j])];
          parts := parts + [CallPart(message.toolCalls[j])];
        }
        assert message.toolCalls[..|message.toolCalls|] == message.toolCalls;
      }
      assert PartsOf(provider, message) == Success(parts);
      if |parts| == 0 {
        FailsAtPrefix(provider, provider.Anthropic?, messages, i + 1);
        return Failure(NoContent);
      }
      if provider.Anthropic? && message.role.AssistantRole? && |message.toolCalls| > 0 {
        var split := SplitAssistantParts(message.role, parts);
        turns := turns + split;
        continue;
      }
      turns := turns + [Turn(message.role, parts)];
    }
    assert messages[..|messages|] == messages;
    return Success(turns);
  }

  lemma NothingConverted(provider: Provider, splits: bool)
    ensures ConvertedAll(provider, splits, []) == Success([])
  {
  }

  lemma ConvertedStep(provider: Provider, splits: bool, messages: seq<Message>, i: nat)
    requires i < |messages|
    ensures ConvertedAll(provider, splits, messages[..i + 1]) ==
            match ConvertedAll(provider, splits, messages[..i])
            case Failure(e) => Failure(e)
            case Success(before) =>
              match Converted(provider, splits, messages[i])
              case Failure(e) => Failure(e)
              case Success(turns) => Success(before + turns)
  {
    hide Converted;
    assert messages[..i + 1][..i] == messages[..i];
  }

  lemma {:induction false} FailsAtPrefix(provider: Provider, splits: bool, messages: seq<Message>, i: nat)
    requires i <= |messages| && ConvertedAll(provider, splits, messages[..i]).Failure?
    ensures ConvertedAll(provider, splits, messages) == ConvertedAll(provider, splits, messages[..i])
    decreases |messages|
  {
    hide Converted;
    if i < |messages| {
      var front := messages[..|messages| - 1];
      assert front[..i] == messages[..i];
      FailsAtPrefix(provider, splits, front, i);
    } else {
      assert messages[..i] == messages;
    }
  }

  // ---------------------------------------------------------------------------
  // Folding
  // ---------------------------------------------------------------------------

  /** A turn joins the previous one if they share a role. */
  function Absorb<B>(folded: seq<Turn<B>>, turn: Turn<B>): seq<Turn<B>> {
    if folded != [] && folded[|folded| - 1].role == turn.role
    then folded[..|folded| - 1] + [Turn(turn.role, folded[|folded| - 1].blocks + turn.blocks)]
    else folded + [turn]
  }

  function Folded<B>(turns: seq<Turn<B>>): (folded: seq<Turn<B>>)
    ensures |folded| <= |turns| && (turns != [] ==> folded != [])
  {
    if turns == [] then [] else Absorb(Folded(turns[..|turns| - 1]), turns[|turns| - 1])
  }

  /** What the content field of a wire message holds; a null decodes as an empty text. */
  datatype Content<B> = Text(text: string) | Null | Blocks(blocks: seq<B>) | Malformed

  datatype WireMessage<B> = WireMessage(role: Role, content: Content<B>)

  /** A request body: malformed, without messages, or with them. */
  datatype Body<B> = BadBody | NoMessages | BadMessages | Messages(messages: seq<WireMessage<B>>)

  function ContentBlocks<B>(content: Content<B>, textBlock: string -> B): Option<seq<B>> {
    match content
    case Text(text) => Some([textBlock(text)])
    case Null => Some([textBlock("")])
    case Blocks(blocks) => Some(blocks)
    case Malformed => None
  }

  /** The turns of the messages, if all their contents can be read. */
  function TurnsOf<B>(messages: seq<WireMessage<B>>, textBlock: string -> B): (turns: Option<seq<Turn<B>>>)
    ensures turns.Some? ==> |turns.value| == |messages|
    ensures turns.Some? <==> forall i :: 0 <= i < |messages| ==> !messages[i].content.Malformed?
  {
    if messages == [] then Some([])
    else
      var last := messages[|messages| - 1];
      var before := TurnsOf(messages[..|messages| - 1], textBlock);
      var blocks := ContentBlocks(last.content, textBlock);
      if before.None? || blocks.None? then None else Some(before.value + [Turn(last.role, blocks.value)])
  }

  function ToWire<B>(turns: seq<Turn<B>>): seq<WireMessage<B>> {
    seq(|turns|, i requires 0 <= i < |turns| => WireMessage(turns[i].role, Blocks(turns[i].blocks)))
  }

  /** The rewritten body: untouched when there is nothing to fold, None when it cannot be read. */
  function FoldedBody<B>(body: Body<B>, textBlock: string -> B): Option<Body<B>> {
    match body
    case BadBody => None
    case NoMessages => Some(body)
    case BadMessages => None
    case Messages(messages) =>
      var turns := TurnsOf(messages, textBlock);
      if turns.None? then None
      else if |Folded(turns.value)| == |messages| then Some(body)
      else Some(Messages(ToWire(Folded(turns.value))))
  }

  method FoldTurns<B>(body: Body<B>, textBlock: string -> B) returns (result: Option<Body<B>>)
    ensures result == FoldedBody(body, textBlock)
  {
    hide Folded, TurnsOf, ContentBlocks;
    match body {
      case BadBody =>
        return None;
      case NoMessages =>
        return Some(body);
      case BadMessages =>
        return None;
      case Messages(messages) =>
        var folded: seq<Role> := [];
        var blocks: seq<seq<B>> := [];
        ghost var turns: seq<Turn<B>> := [];
        NothingFolded(textBlock);
        for i := 0 to |messages|
          invariant TurnsOf(messages[..i], textBlock) == Some(turns)
          invariant |folded| == |blocks| && Zipped(folded, blocks) == Folded(turns)
        {
          var message := messages[i];
          TurnsStep(messages, i, textBlock);
          var content := ContentBlocks(message.content, textBlock);
          if content.None? {
            UnreadablePrefix(messages, i, textBlock);
            return None;
          }
          FoldedStep(turns, Turn(message.role, content.value));
          turns := turns + [Turn(message.role, content.value)];
          var n := |folded|;
          if n > 0 && folded[n - 1] == message.role {
            blocks := blocks[n - 1 := blocks[n - 1] + content.value];
            continue;
          }
          folded := folded + [message.role];
          blocks := blocks + [content.value];
        }
        assert messages[..|messages|] == messages;
        if |folded| == |messages| {
          return Some(body);
        }
        var encoded: seq<WireMessage<B>> := [];
        for i := 0 to |folded|
          invariant |encoded| == i
          invariant forall j :: 0 <= j < i ==> encoded[j] == WireMessage(folded[j], Blocks(blocks[j]))
        {
          encoded := encoded + [WireMessage(folded[i], Blocks(blocks[i]))];
        }
        assert encoded == ToWire(Folded(turns));
        return Some(Messages(encoded));
    }
  }

  ghost function Zipped<B>(roles: seq<Role>, blocks: seq<seq<B>>): (turns: seq<Turn<B>>)
    requires |roles| == |blocks|
    ensures |turns| == |roles| && forall i :: 0 <= i < |roles| ==> turns[i] == Turn(roles[i], blocks[i])
  {
    seq(|roles|, i requires 0 <= i < |roles| => Turn(roles[i], blocks[i]))
  }

  lemma NothingFolded<B>(textBlock: string -> B)
    ensures TurnsOf([], textBlock) == Some([]) && Folded<B>([]) == []
  {
  }

  lemma TurnsStep<B>(messages: seq<WireMessage<B>>, i: nat, textBlock: string -> B)
    requires i < |messages|
    ensures var before := TurnsOf(messages[..i], textBlock);
            var blocks := ContentBlocks(messages[i].content, textBlock);
            TurnsOf(messages[..i + 1], textBlock) ==
            if before.None? || blocks.None? then None else Some(before.value + [Turn(messages[i].role, blocks.value)])
    ensures ContentBlocks(messages[i].content, textBlock).None? <==> messages[i].content.Malformed?
  {
    assert messages[..i + 1][..i] == messages[..i];
  }

  lemma UnreadablePrefix<B>(messages: seq<WireMessage<B>>, i: nat, textBlock: string -> B)
    requires i < |messages| && messages[i].content.Malformed?
    ensures TurnsOf(messages, textBlock).None?
  {
  }

  lemma FoldedStep<B>(turns: seq<Turn<B>>, turn: Turn<B>)
    ensures Folded(turns + [turn]) == Absorb(Folded(turns), turn)
  {
    assert (turns + [turn])[..|turns|] == turns;
  }
}
