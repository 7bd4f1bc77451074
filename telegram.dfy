/**
  What the Telegram channel (src/channels/telegram.ts) does with a reply list:
  `sendText` is applied to each element in order and skips `undefined` and
  empty strings, so only the non-empty texts reach the chat.
*/
module Telegram {
  import opened Wrappers
  import opened Engine

  /**
    `sendText` sends a reply unless it is `undefined` or has length 0. The body
    says when a reply is sent; the ensures restates it as the source's own skip
    test, `text === undefined || text.length === 0`, so the two can be compared.
  */
  predicate Sendable(reply: Reply): (b: bool)
    ensures !b <==> reply == Undefined || |reply.s| == 0
  {
    reply.Text? && |reply.s| > 0
  }

  /** The messages actually sent for a reply list, in order. */
  function SentTexts(replies: seq<Reply>): (sent: seq<string>)
    ensures |sent| <= |replies|
    ensures forall k :: 0 <= k < |sent| ==> |sent[k]| > 0
    ensures sent == [] <==> forall i :: 0 <= i < |replies| ==> !Sendable(replies[i])
  {
    if |replies| == 0 then []
    else if Sendable(replies[0]) then [replies[0].s] + SentTexts(replies[1..])
    else SentTexts(replies[1..])
  }

  /** Sending two lists one after the other sends the same texts as sending their concatenation. */
  lemma {:induction false} SentTextsAppend(a: seq<Reply>, b: seq<Reply>)
    ensures SentTexts(a + b) == SentTexts(a) + SentTexts(b)
  {
    if |a| > 0 {
      assert (a + b)[0] == a[0];
      assert (a + b)[1..] == a[1..] + b;
      SentTextsAppend(a[1..], b);
    } else {
      assert a + b == b;
    }
  }

  /** A handler's non-empty replies all reach the chat, unchanged and in order. */
  lemma {:induction false} NonEmptyRepliesAllSent(replies: seq<string>)
    requires forall i :: 0 <= i < |replies| ==> |replies[i]| > 0
    ensures SentTexts(Texts(replies)) == replies
  {
    if |replies| > 0 {
      assert Texts(replies)[1..] == Texts(replies[1..]);
      NonEmptyRepliesAllSent(replies[1..]);
    }
  }

  /** `["hello", "", "world"]` sends "hello" and then "world". */
  lemma EmptyReplyDroppedExample()
    ensures SentTexts(Texts(["hello", "", "world"])) == ["hello", "world"]
  {
  }

  /** The error summary always sends its first line, and its second only when that is a non-empty text. */
  lemma ErrorRepliesSent(err: Rejection)
    ensures var r := ErrorReplies(err);
      SentTexts(r) == [r[0].s] + (if Sendable(r[1]) then [r[1].s] else [])
  {
  }

  /** A rejection with message "boom" and no cause sends exactly "boom"; one without a message sends the generic line. */
  lemma ErrorSurfacingExample()
    ensures SentTexts(ErrorReplies(Thrown(Some("boom"), None))) == ["boom"]
    ensures SentTexts(ErrorReplies(Falsy)) == [GenericFailureText]
  {
  }

  /**
    Every dispatch that does not forward a handler's own replies sends at least
    one message: the fallback text, or the first line of an error summary.
  */
  lemma UnansweredOnlyByHandler(commands: seq<Command>, m: Matcher, respond: Respond, msg: Message)
    ensures var r := HandleMessage(commands, m, respond, msg);
      forall k :: 0 <= k < |r.calls| && !(k == 0 && r.Handled? && r.result.Resolved?) ==>
        |SentTexts(r.calls[k].responses)| > 0
  {
  }
}
