/**
  The message-dispatch engine of the bot (src/engine.ts).

  `handleMessage(commands)(respond, msg)` scans an ordered table of
  `[pattern, handler]` pairs, picks the first pattern that matches the text of
  the inbound message, calls its handler with the capture groups and hands the
  handler's replies (or a summary of its failure) to `respond`.

  What the engine cannot see is a parameter here:
  - the regular-expression engine behind `String.prototype.match` is a
    `Matcher`, which returns the match array (element 0 is the whole match);
  - a handler is a function from the message and its arguments to an already
    settled `HandlerResult`;
  - `respond` is a function from the position of the call within the dispatch
    (0 for the first, 1 for the second), the message and a reply list to the
    settled `Delivery` of those replies; the position lets a second send with
    the same arguments settle differently from the first, as a network send can.
*/
module Engine {
  import opened Wrappers

  /**
    The parts of an inbound chat message the engine touches: `text` is matched;
    `username` is only read by the dropped log lines and `chatId` only by the
    transport, but both are kept so that the message passed on to handlers and
    to `respond` is visibly the one that came in.
  */
  datatype Message = Message(username: string, text: string, chatId: int)

  /** One element of a reply list: a string, or the `undefined` that the error path may put in it. */
  datatype Reply = Text(s: string) | Undefined

  /** `err.error` of a rejection, when it is truthy: it may or may not carry a `message`. */
  datatype Cause = Cause(message: Option<string>)

  /**
    What a handler (or `respond`) rejects with. `Falsy` stands for every falsy value
    (`undefined`, `null`, `false`, `0`, `""`); `Thrown` for an object with an
    optional `message` and an optional truthy `error` field.
  */
  datatype Rejection = Falsy | Thrown(message: Option<string>, cause: Option<Cause>)

  /** The settled promise a `CommandFunction` returns (src/engine.ts:5). */
  datatype HandlerResult = Resolved(replies: seq<string>) | Rejected(err: Rejection)

  /** The settled promise a `RespondFunction` returns (src/engine.ts:7). */
  datatype Delivery = Delivered | Undelivered(err: Rejection)

  /** `text.match(pattern)`: `None` for `null`, otherwise the match array. */
  type Matcher = (string, string) -> Option<seq<string>>

  type Handler = (Message, seq<string>) -> HandlerResult

  /** A `RespondFunction`: the call's position in this dispatch, the message and the replies. */
  type Respond = (nat, Message, seq<Reply>) -> Delivery

  /** One `[pattern, handler]` pair of the command table. */
  datatype Command = Command(pattern: string, handler: Handler)

  /** One call of `respond`: the message given as context and the reply list. */
  datatype Call = Call(context: Message, responses: seq<Reply>)

  /**
    Everything one dispatch does: whether a handler ran (and which, with what
    arguments and what result), every `respond` call in order, and how the
    promise returned by `handleMessage` settles.
  */
  datatype Outcome =
    | Unmatched(calls: seq<Call>, settled: Delivery)
    | Handled(index: nat, args: seq<string>, result: HandlerResult, calls: seq<Call>, settled: Delivery)

  const FallbackText: string := "Ik begrijp niet wat je zegt.. "

  const GenericFailureText: string := "Something went really wrong.."

  /** `!!text.match(pattern)`. */
  predicate Matches(m: Matcher, pattern: string, text: string) {
    m(pattern, text).Some?
  }

  /** Reference definition of the selection: `i` is the first entry whose pattern matches `text`. */
  predicate IsFirstMatch(commands: seq<Command>, m: Matcher, text: string, i: nat) {
    && i < |commands|
    && Matches(m, commands[i].pattern, text)
    && forall j :: 0 <= j < i ==> !Matches(m, commands[j].pattern, text)
  }

  predicate NoneMatches(commands: seq<Command>, m: Matcher, text: string) {
    forall j :: 0 <= j < |commands| ==> !Matches(m, commands[j].pattern, text)
  }

  /** `commands.find(([cmd, fn]) => !!text.match(cmd))`, as an index into the table. */
  function FindCommand(commands: seq<Command>, m: Matcher, text: string): (r: Option<nat>)
    ensures r.Some? ==> IsFirstMatch(commands, m, text, r.value)
    ensures r.None? <==> NoneMatches(commands, m, text)
  {
    if |commands| == 0 then None
    else if Matches(m, commands[0].pattern, text) then Some(0)
    else match FindCommand(commands[1..], m, text)
      case None => None
      case Some(i) => Some(i + 1)
  }

  /** `const [, ...args] = matchArray`: everything after the whole match, in order. */
  function CaptureArgs(groups: seq<string>): (args: seq<string>)
    ensures |groups| > 0 ==> groups == [groups[0]] + args
    ensures |groups| == 0 ==> args == []
  {
    if |groups| == 0 then [] else groups[1..]
  }

  /** A handler's `string[]` handed to `respond` as it is. */
  function Texts(replies: seq<string>): (r: seq<Reply>)
    ensures |r| == |replies|
    ensures forall i :: 0 <= i < |r| ==> r[i] == Text(replies[i])
  {
    seq(|replies|, i requires 0 <= i < |replies| => Text(replies[i]))
  }

  /**
    The two-element reply built from a rejection:
    `[err && err.message || generic, err && err.error && err.error.message]`.
  */
  function ErrorReplies(err: Rejection): (r: seq<Reply>)
    ensures |r| == 2
    ensures r[0].Text? && |r[0].s| > 0
    ensures r[0].s != GenericFailureText ==> err.Thrown? && err.message == Some(r[0].s)
    ensures err.Thrown? && err.message.Some? && |err.message.value| > 0 ==> r[0].s == err.message.value
    ensures r[1].Text? <==> err.Thrown? && err.cause.Some? && err.cause.value.message.Some?
    ensures r[1].Text? ==> Some(r[1].s) == err.cause.value.message
  {
    var first :=
      if err.Thrown? && err.message.Some? && |err.message.value| > 0
      then err.message.value
      else GenericFailureText;
    var second :=
      if err.Thrown? && err.cause.Some? && err.cause.value.message.Some?
      then Text(err.cause.value.message.value)
      else Undefined;
    [Text(first), second]
  }

  /**
    `fn(...).then(replies => respond(msg, replies)).catch(err => respond(msg, ErrorReplies(err)))`
    once the handler's promise has settled: the `respond` calls made, in order.
    Because `.catch` follows `.then`, a rejected delivery of the handler's
    replies is caught as well and answered with a second call.
  */
  function Responses(respond: Respond, msg: Message, result: HandlerResult): (calls: seq<Call>)
    ensures 1 <= |calls| <= 2
    ensures forall k :: 0 <= k < |calls| ==> calls[k].context == msg
    ensures result.Resolved? ==> calls[0].responses == Texts(result.replies)
    ensures result.Rejected? ==> calls == [Call(msg, ErrorReplies(result.err))]
    ensures |calls| == 2 <==> result.Resolved? && respond(0, msg, Texts(result.replies)).Undelivered?
    ensures |calls| == 2 ==> calls[1].responses == ErrorReplies(respond(0, msg, Texts(result.replies)).err)
  {
    match result
    case Resolved(replies) =>
      var first := Call(msg, Texts(replies));
      (match respond(0, msg, first.responses)
       case Delivered => [first]
       case Undelivered(e) => [first, Call(msg, ErrorReplies(e))])
    case Rejected(err) =>
      [Call(msg, ErrorReplies(err))]
  }

  /** `handleMessage(commands)(respond, msg)`. */
  function HandleMessage(commands: seq<Command>, m: Matcher, respond: Respond, msg: Message): (r: Outcome)
    // no handler runs exactly when no pattern matches, and then the one reply is the fallback text
    ensures r.Unmatched? <==> NoneMatches(commands, m, msg.text)
    ensures r.Unmatched? ==> r.calls == [Call(msg, [Text(FallbackText)])]
    // otherwise the first matching entry runs, on the capture groups of its own match
    ensures r.Handled? ==> IsFirstMatch(commands, m, msg.text, r.index)
    ensures r.Handled? ==>
      var groups := m(commands[r.index].pattern, msg.text).value;
      && (|groups| > 0 ==> groups == [groups[0]] + r.args)
      && (|groups| == 0 ==> r.args == [])
    ensures r.Handled? ==> r.result == commands[r.index].handler(msg, r.args)
    // the handler's result decides every respond call, as Responses states
    ensures r.Handled? ==> r.calls == Responses(respond, msg, r.result)
    // The clauses below follow from the one above and Responses' contract; they are
    // stated here too so that a caller sees the whole outcome without unfolding Responses.
    // respond is always called, with the original message, at most twice
    ensures 1 <= |r.calls| <= 2
    // a resolved handler's replies go to respond first, unchanged; a rejection is summarised
    ensures r.Handled? && r.result.Resolved? ==> r.calls[0].responses == Texts(r.result.replies)
    ensures r.Handled? && r.result.Rejected? ==> r.calls == [Call(msg, ErrorReplies(r.result.err))]
    ensures forall k :: 0 <= k < |r.calls| ==> r.calls[k].context == msg
    ensures r.settled == respond(|r.calls| - 1, msg, r.calls[|r.calls| - 1].responses)
  {
    match FindCommand(commands, m, msg.text)
    case None =>
      var call := Call(msg, [Text(FallbackText)]);
      Unmatched([call], respond(0, msg, call.responses))
    case Some(i) =>
      var args := CaptureArgs(m(commands[i].pattern, msg.text).value);
      var result := commands[i].handler(msg, args);
      var calls := Responses(respond, msg, result);
      Handled(i, args, result, calls, respond(|calls| - 1, msg, calls[|calls| - 1].responses))
  }

  /**
    Registration order is priority order: entries appended after the table
    never change which entry is found, unless none of the earlier ones matched.
  */
  lemma {:induction false} FindCommandAppend(earlier: seq<Command>, later: seq<Command>, m: Matcher, text: string)
    ensures FindCommand(earlier, m, text).Some? ==>
      FindCommand(earlier + later, m, text) == FindCommand(earlier, m, text)
    ensures FindCommand(earlier, m, text).None? ==>
      FindCommand(earlier + later, m, text) ==
        match FindCommand(later, m, text)
        case None => None
        case Some(i) => Some(|earlier| + i)
  {
    if |earlier| > 0 {
      assert (earlier + later)[0] == earlier[0];
      assert (earlier + later)[1..] == earlier[1..] + later;
      FindCommandAppend(earlier[1..], later, m, text);
    } else {
      assert earlier + later == later;
    }
  }

  /** Dispatch on a table with more entries appended is the same dispatch, when an earlier entry matches. */
  lemma DispatchIgnoresLaterCommands(earlier: seq<Command>, later: seq<Command>, m: Matcher, respond: Respond, msg: Message)
    requires !NoneMatches(earlier, m, msg.text)
    ensures HandleMessage(earlier + later, m, respond, msg) == HandleMessage(earlier, m, respond, msg)
  {
    FindCommandAppend(earlier, later, m, msg.text);
    var i := FindCommand(earlier, m, msg.text).value;
    assert (earlier + later)[i] == earlier[i];
  }

  /** The first match is unique: the selection cannot depend on anything but the table and the text. */
  lemma FirstMatchUnique(commands: seq<Command>, m: Matcher, text: string, i: nat, j: nat)
    requires IsFirstMatch(commands, m, text, i) && IsFirstMatch(commands, m, text, j)
    ensures i == j
  {
  }

  /**
    Argument extraction: when the matcher gives the pattern `/trein (\w*) (\w*)`
    on the text "/trein ut asd" the match array ["/trein ut asd", "ut", "asd"],
    the handler receives exactly the two groups "ut" and "asd".
  */
  lemma TreinArgsExample(h: Handler, m: Matcher, respond: Respond, msg: Message)
    requires msg.text == "/trein ut asd"
    requires m("/trein (\\w*) (\\w*)", msg.text) == Some(["/trein ut asd", "ut", "asd"])
    ensures var r := HandleMessage([Command("/trein (\\w*) (\\w*)", h)], m, respond, msg);
      r.Handled? && r.index == 0 && r.args == ["ut", "asd"] && r.result == h(msg, ["ut", "asd"])
  {
    var groups := ["/trein ut asd", "ut", "asd"];
    assert groups[1..] == ["ut", "asd"];
  }

  /**
    A send that fails once may succeed when retried: the handler's replies are
    not delivered, the error summary that `.catch` sends next is, and the
    promise of `handleMessage` then resolves.
  */
  lemma RetriedSendCanSucceed(h: Handler, m: Matcher, msg: Message, e: Rejection)
    requires m("/trein", msg.text).Some?
    requires h(msg, CaptureArgs(m("/trein", msg.text).value)).Resolved?
    ensures var respond: Respond := (k: nat, _: Message, _: seq<Reply>) => if k == 0 then Undelivered(e) else Delivered;
      var r := HandleMessage([Command("/trein", h)], m, respond, msg);
      && r.Handled? && |r.calls| == 2
      && r.calls[1] == Call(msg, ErrorReplies(e))
      && r.settled == Delivered
  {
  }

  /** The failure summary of a rejection whose object has a non-empty message and no cause. */
  lemma ErrorMessageSurfaces(msgText: string)
    requires |msgText| > 0
    ensures ErrorReplies(Thrown(Some(msgText), None)) == [Text(msgText), Undefined]
  {
  }

  /** A falsy rejection, or one without a message, gets the generic line and no second line. */
  lemma MissingMessageIsGeneric(err: Rejection)
    requires err.Falsy? || (err.message.None? && err.cause.None?)
    ensures ErrorReplies(err) == [Text(GenericFailureText), Undefined]
  {
  }
}

/**
  A literal substring matcher: the pattern matches when it occurs in the text,
  and the match array is the whole match alone (a pattern without groups).
  It stands in for the regular-expression engine in concrete examples.
*/
module LiteralMatch {
  import opened Wrappers
  import opened Engine

  predicate OccursAt(pattern: string, text: string, k: nat) {
    k + |pattern| <= |text| && text[k..k + |pattern|] == pattern
  }

  /** The first position at which `pattern` occurs in `text`. */
  function IndexOf(pattern: string, text: string, from: nat): (r: Option<nat>)
    requires from <= |text| + 1
    decreases |text| + 1 - from
    ensures r.Some? ==> from <= r.value && OccursAt(pattern, text, r.value)
    ensures r.Some? ==> forall k :: from <= k < r.value ==> !OccursAt(pattern, text, k)
    ensures r.None? <==> forall k :: from <= k <= |text| ==> !OccursAt(pattern, text, k)
  {
    if from + |pattern| > |text| then None
    else if text[from..from + |pattern|] == pattern then
      assert OccursAt(pattern, text, from);
      Some(from)
    else IndexOf(pattern, text, from + 1)
  }

  function LiteralMatcher(pattern: string, text: string): (r: Option<seq<string>>)
    ensures r.Some? <==> exists k :: 0 <= k <= |text| && OccursAt(pattern, text, k)
    ensures r.Some? ==> r.value == [pattern]
  {
    match IndexOf(pattern, text, 0)
    case None => None
    case Some(_) => Some([pattern])
  }

  /** With `["/a", "/ab"]` and the text "/ab", the handler registered for "/a" runs, not the one for "/ab". */
  lemma FirstMatchWinsExample(first: Handler, second: Handler, respond: Respond, msg: Message)
    requires msg.text == "/ab"
    ensures var r := HandleMessage([Command("/a", first), Command("/ab", second)], LiteralMatcher, respond, msg);
      r.Handled? && r.index == 0 && r.args == [] && r.result == first(msg, [])
  {
  }

  /** A text no pattern occurs in gets exactly the fallback reply and runs no handler. */
  lemma UnmatchedExample(h: Handler, respond: Respond, msg: Message)
    requires msg.text == "hallo"
    ensures var r := HandleMessage([Command("/trein", h)], LiteralMatcher, respond, msg);
      r.Unmatched? && r.calls == [Call(msg, [Text(FallbackText)])]
  {
  }

  /** A pattern without capture groups hands its handler no arguments beyond the message. */
  lemma NoGroupsNoArgs(commands: seq<Command>, respond: Respond, msg: Message)
    ensures var r := HandleMessage(commands, LiteralMatcher, respond, msg);
      r.Handled? ==> r.args == [] && r.result == commands[r.index].handler(msg, [])
  {
  }
}
