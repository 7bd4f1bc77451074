# goedemorgenbot dispatch engine and NS disruption report, in Dafny

This project models the core of a command-routing Telegram chat bot. The core has two parts.

- **The dispatch engine** (`handleMessage`, module `Engine`). It scans an ordered table of
  `[pattern, handler]` pairs and picks the first pattern that matches the text of the inbound
  message. If nothing matches, it answers with the fixed Dutch fallback line
  `"Ik begrijp niet wat je zegt.. "`. Otherwise it calls the handler with the capture groups of
  the match, without the whole match. It then forwards the handler's replies to `respond`. If the
  handler rejects, it sends a two-element summary instead: the error's message or
  `"Something went really wrong.."`, then the nested `err.error.message` or `undefined`.
- **The NS disruption report** (module `Ns`). Each planned disruption becomes one line,
  `"Geplande werkzaamheden <Periode> op traject <Traject>"`. Each unplanned disruption becomes its
  `Bericht` with every `'\r'` turned into `'\n'`. The planned lines come first.

Some parts of the system are not visible to the core, so they are parameters of the model:
- the regular-expression engine behind `text.match(pattern)`: a `Matcher`, which returns the
  match array or `None`;
- a handler: a function from the message and its arguments to an already settled
  `HandlerResult`, either `Resolved(replies)` or `Rejected(err)`;
- `respond`: a function from the position of the call within one dispatch (0 or 1), the message
  and a reply list to the settled `Delivery`. With the position, a second send with the same
  arguments can settle differently from the first, as a send over the network can;
- the NS provider's callback arguments: an `ApiReply`.

`HandleMessage` returns an `Outcome`. It says whether a handler ran, and if so which one, with
which arguments and with what result. It lists every `respond` call in order, and it gives the
settlement of the promise that `handleMessage` returns.

Three further modules support the model:
- `Telegram` models what the channel's `sendText` (src/channels/telegram.ts:28-34) does with a
  reply list: it skips `undefined` and empty strings. None of the files cited here connects `respond` to
  `sendText`. The model assumes that `respond` passes each element of its list to `sendText`, in
  order, as src/index.ts:13-15 does for the NS lines with `Promise.each`. The statements about
  what "reaches the chat" rest on that assumption.
- `JsText` models JavaScript's `split` and `join` for one-character separators.
- `LiteralMatch` is a substring matcher used only in the concrete examples.

Notes on behaviour:
- **Respond can be called twice.** `.catch` comes after `.then` (src/engine.ts:22-31). If
  delivering the handler's replies is rejected, that rejection is caught too, and a second
  `respond` call sends its error summary. Nothing else is retried. `Engine.Responses` and
  `Engine.HandleMessage` state the two-call case.
- **The error reply always has two elements.** When there is no nested cause, the second one is
  `undefined`. Dropping it is left to the transport
  (`Telegram.SentTexts`).
- **Empty replies are filtered by the channel, not the engine.** The engine forwards the
  handler's replies verbatim. The Telegram channel's `sendText` skips empty and undefined texts.
- **Patterns are strings matched at dispatch time.** Each dispatch turns them into regular
  expressions again. The table is a plain array given to `handleMessage`, and there is no
  register operation.

## Model

| member | source | states |
|---|---|---|
| Engine.FindCommand | src/engine.ts:12 | the index found is the first entry whose pattern matches the text; it finds none exactly when no pattern matches |
| Engine.CaptureArgs | src/engine.ts:19 | the handler arguments are the match array after its whole-match element, in order; an empty array gives no arguments |
| Engine.ErrorReplies | src/engine.ts:27-30 | a rejection becomes exactly two replies; the first is always a non-empty text: the error's message when it is a non-empty string, else the generic failure line; the second is a text exactly when `err.error.message` exists, and then equals it, else undefined |
| Engine.Responses | src/engine.ts:22-31 | after the handler settles, respond is called once or twice, always with the original message; a resolved handler's replies go first, unchanged and in order; a rejection gives exactly one call with its error summary; a second call happens exactly when delivering the handler's replies was rejected, and it carries that rejection's summary |
| Engine.HandleMessage | src/engine.ts:9-33 | no handler runs exactly when no pattern matches, and then the only respond call carries the single fallback line; otherwise the first matching entry runs, on the capture groups of its own match (none for an empty match array), and the respond calls are exactly those Responses gives for its result; every call uses the original message; the returned promise settles as the last respond call does |
| Engine.Texts | src/engine.ts:23 | the handler's replies are handed to respond one for one, each as a text, in order |
| Engine.FindCommandAppend | src/engine.ts:12 | entries added after the table never change the selection when an earlier entry matches; otherwise the selection is the later table's one, shifted by the earlier table's length |
| Engine.DispatchIgnoresLaterCommands | src/engine.ts:12-31 | when an entry of a table matches, dispatching on that table with more entries appended gives the same outcome |
| Engine.FirstMatchUnique | src/engine.ts:12 | at most one index is the first match, so at most one handler is selected per message |
| Engine.ErrorMessageSurfaces | src/engine.ts:27-30 | a rejection whose message is a non-empty string and that has no cause gives that message and then undefined |
| Engine.MissingMessageIsGeneric | src/engine.ts:27-30 | a falsy rejection, or one without a message and without a cause, gives the generic failure line and then undefined |
| Engine.RetriedSendCanSucceed | src/engine.ts:22-31 | when the first send of a handler's replies is rejected and the next send succeeds, respond is called a second time with the error summary, and the dispatch's promise resolves |
| Engine.TreinArgsExample | src/engine.ts:19-22 | when the match array of `/trein (\w*) (\w*)` on "/trein ut asd" is ["/trein ut asd", "ut", "asd"], the handler receives exactly "ut" and "asd" |
| LiteralMatch.FirstMatchWinsExample | src/engine.ts:12 | with the patterns "/a" then "/ab" and the text "/ab", the "/a" handler runs, with no arguments |
| LiteralMatch.UnmatchedExample | src/engine.ts:14-17 | example: the text "hallo" against the single pattern "/trein" gets exactly one respond call, carrying the fallback line, and no handler runs (the general fact is in Engine.HandleMessage's contract) |
| LiteralMatch.NoGroupsNoArgs | src/engine.ts:19-22 | a pattern without capture groups gets its handler called with no arguments beyond the message |
| JsText.Split | src/services/ns.ts:40 | `split` on one character gives one more piece than there are separators, and no piece contains the separator |
| JsText.Join | src/services/ns.ts:40 | `join` of no parts is the empty text; otherwise the result starts with the first part, followed by the separator when there are more parts, and its length is the parts' total length plus one separator fewer than there are parts |
| JsText.SplitJoinInverse | src/services/ns.ts:40 | joining separator-free pieces with a one-character separator and splitting on it again gives back the pieces, so `join` places every piece in order |
| JsText.SplitJoinReplaces | src/services/ns.ts:40 | splitting on one character and joining with another replaces every occurrence of the first character by the second, and keeps every other character |
| JsText.JoinSplitRoundTrip | src/services/ns.ts:40 | joining the pieces with the character they were split on gives back the original text |
| Ns.GeplandToString | src/services/ns.ts:35-37 | the line is the fixed prefix, then the period, then " op traject ", then the route, and nothing else |
| Ns.LineBreaks | src/services/ns.ts:40 | the text keeps its length; every carriage return becomes a newline, every other character stays at its position, and no carriage return is left |
| Ns.OngeplandToString | src/services/ns.ts:39-41 | an unplanned disruption's line is its message, of the same length, with each carriage return replaced by a newline and no carriage return left |
| Ns.LineBreaksIdempotent | src/services/ns.ts:40 | normalising the line breaks twice gives the same text as normalising once |
| Ns.LineBreaksKeepsPlainText | src/services/ns.ts:40 | a message without carriage returns is reported unchanged |
| Ns.GeplandLines | src/services/ns.ts:25 | one line per planned disruption, each at its record's position |
| Ns.OngeplandLines | src/services/ns.ts:26 | one line per unplanned disruption, each at its record's position |
| Ns.StoringenLines | src/services/ns.ts:24-27 | the report has one line per record; the first lines are the planned ones in input order, and the unplanned ones follow in input order |
| Ns.GetStoringen | src/services/ns.ts:17-27 | a truthy provider error rejects with that error and produces no lines; otherwise the result is the report with one line per record |
| Telegram.Sendable | src/channels/telegram.ts:29-31 | a reply is skipped exactly when it is undefined or has length 0 |
| Telegram.SentTexts | src/channels/telegram.ts:28-34 | only non-empty texts are sent, never more than the replies given; nothing is sent exactly when every reply is undefined or empty |
| Telegram.SentTextsAppend | src/channels/telegram.ts:28-34 | sending two reply lists one after the other sends the same texts, in the same order, as sending their concatenation |
| Telegram.NonEmptyRepliesAllSent | src/channels/telegram.ts:28-34 | a handler's non-empty replies all reach the chat, unchanged and in order |
| Telegram.EmptyReplyDroppedExample | src/channels/telegram.ts:29-31 | the replies "hello", "" and "world" send "hello" and then "world" |
| Telegram.ErrorRepliesSent | src/engine.ts:27-30 | an error summary always sends its first line, and sends its second only when that is a non-empty text |
| Telegram.ErrorSurfacingExample | src/engine.ts:27-30 | a rejection with message "boom" and no cause sends exactly "boom"; a falsy rejection sends exactly the generic failure line |
| Telegram.UnansweredOnlyByHandler | src/engine.ts:14-31 | every respond call except the one forwarding a handler's own replies sends at least one message to the chat |

## Left out

- Regular expressions: `text.match(pattern)` builds a `RegExp` from a string, and that engine is not part of this model. The matcher is a parameter. The model assumes it is deterministic, because the source matches twice (src/engine.ts:12 and 19) and uses the second result. An invalid pattern string, which would throw during `find`, is not modelled.
- Promises and timing: handler results and deliveries are already settled values. Interleaving of concurrent dispatches is not modelled.
- A handler that throws synchronously instead of returning a rejected promise. The exception escapes `handleMessage`, because `.catch` is never reached. This is not modelled.
- Falsy rejection values: `undefined`, `null`, `false`, `0` and `""` are all one value, `Rejection.Falsy`. The second error line is then `undefined`, where the source would pass the falsy value itself.
- A non-string `message` on an error object: messages are strings or absent.
- Engine.ErrorReplies: a falsy `err.error` other than `undefined` (`null`, `0`, `false`, `""`) is passed on by src/engine.ts:29 as the second line itself. The model makes that line `Undefined`, like a missing `err.error`.
- Telegram.ErrorRepliesSent: because of the line above, "the second line is sent only when it is a non-empty text" is stated for the modelled values only. For a `null` second line the source's `sendText` would throw at `text.length` (src/channels/telegram.ts:29), and `0` or `false` would be handed on to `sendMessage`.
- Capture groups that do not take part in the match: `String.prototype.match` puts `undefined` in the match array for them, and the handler receives it. A `Matcher` returns strings only, so this is not modelled.
- Failed sends: `Promise.each` in src/index.ts:13-15 stops at the first rejected `sendText`. `Telegram.SentTexts` gives the texts sent when every send succeeds.
- Logging (`log`, `debug`, src/common/log.ts) depends on the clock, the console and the process arguments. It is dropped, and so are the `log` calls in src/engine.ts.
- src/index.ts: bootstrapping and wiring only.
- The Telegram channel's constructor, webhook set-up and `onText` (src/channels/telegram.ts:9-26). These wrap the bot library. Only `sendText`'s skip rule is modelled.
- `NsService`'s constructor and the `nsApi.storingen` network call, with its hard-coded station (src/services/ns.ts:11-17). The callback's arguments are an input (`ApiReply`). A successful callback without data, which would throw inside the callback, is not modelled.
- A message without `from`: src/engine.ts:10 reads `msg.from.username` for its log line before any matching, so the source throws a TypeError there and sends no reply. The model drops the log line and always has a sender.
- A message without `text`: `msg.text.match` at src/engine.ts:12 throws when the table is non-empty, and no reply is sent. With an empty table `find` never calls its callback and the fallback is still sent. The model's `Message` always has a text.
- Message: only the username, text and chat id are kept. The rest of the Telegram message is passed through untouched, so it is not modelled.
