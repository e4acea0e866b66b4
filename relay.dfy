/** The chunk relay: each chunk goes, in order and one at a time, to the
    remote chat service as one request; the replies are collected, and the
    first failed request ends the relay with an error and no partial reply.
    The remote service is a function from the request's position and the
    request to the reply text or a description of the failure. */
module Relay {
  import opened Wrappers
  import opened Text

  /** The instruction put in front of every chunk. */
  const Preamble := "Analise o seguinte documento (parte):\n\n"

  /** The start of the error text when a request fails. */
  const ErrorPrefix := "Erro ao se comunicar com o Chatbase: "

  /** One request's body: the bot it addresses, the user message, and the
      caller's conversation, if any. */
  datatype Request = Request(chatbotId: Option<string>, content: string, conversationId: Option<string>)

  /** The remote service: the reply to the i-th request, or why it failed. */
  type Service = (nat, Request) -> Result<string, string>

  /** The request that carries one chunk. */
  function RequestFor(chunk: string, chatbotId: Option<string>, conversationId: Option<string>): (req: Request)
  {
    Request(chatbotId, Preamble + chunk, conversationId)
  }

  /** A request's message gives back the chunk it carries. */
  lemma RequestForChunk(chunk: string, chatbotId: Option<string>, conversationId: Option<string>)
    ensures var req := RequestFor(chunk, chatbotId, conversationId);
            |Preamble| <= |req.content| && req.content[..|Preamble|] == Preamble
            && req.content[|Preamble|..] == chunk
            && req.chatbotId == chatbotId && req.conversationId == conversationId
  {
  }

  predicate AllSucceeded(send: Service, sent: seq<Request>)
  {
    forall i :: 0 <= i < |sent| ==> send(i, sent[i]).Success?
  }

  /** The replies to requests that all succeeded, in order. */
  function Replies(send: Service, sent: seq<Request>): (replies: seq<string>)
    requires AllSucceeded(send, sent)
    ensures |replies| == |sent|
    ensures forall i :: 0 <= i < |sent| ==> Success(replies[i]) == send(i, sent[i])
  {
    seq(|sent|, i requires 0 <= i < |sent| => send(i, sent[i]).value)
  }

  /** The running message: every reply followed by a newline, in order. */
  function Accumulated(replies: seq<string>): string
  {
    if replies == [] then "" else Accumulated(replies[..|replies| - 1]) + replies[|replies| - 1] + "\n"
  }

  /** The replies joined with newlines between them. */
  function JoinLines(replies: seq<string>): string
    requires replies != []
  {
    if |replies| == 1 then replies[0] else JoinLines(replies[..|replies| - 1]) + "\n" + replies[|replies| - 1]
  }

  /** The running message is the replies joined with newlines, plus a
      final newline. */
  lemma {:induction false} AccumulatedJoin(replies: seq<string>)
    requires replies != []
    ensures Accumulated(replies) == JoinLines(replies) + "\n"
    decreases |replies|
  {
    if |replies| > 1 {
      AccumulatedJoin(replies[..|replies| - 1]);
    } else {
      assert replies[..0] == [];
    }
  }

  /** What the relay promises. The requests sent are those of chunks
      0, 1, ... in order, each with the preamble and the same bot and
      conversation; every request but the last sent succeeded. On success
      every chunk was sent and the message is the stripped accumulation of
      the replies; on failure the last request sent is the one that failed,
      and the error is that failure's description and nothing of the
      replies. */
  ghost predicate RelayOutcome(chunks: seq<string>, chatbotId: Option<string>, conversationId: Option<string>,
                               send: Service, r: Result<string, string>, sent: seq<Request>)
  {
    && |sent| <= |chunks|
    && (forall i :: 0 <= i < |sent| ==> sent[i] == RequestFor(chunks[i], chatbotId, conversationId))
    && (forall i :: 0 <= i < |sent| - 1 ==> send(i, sent[i]).Success?)
    && match r
       case Success(message) =>
         |sent| == |chunks| && AllSucceeded(send, sent)
         && message == Strip(Accumulated(Replies(send, sent)))
       case Failure(error) =>
         |sent| > 0 && send(|sent| - 1, sent[|sent| - 1]).Failure?
         && error == ErrorPrefix + send(|sent| - 1, sent[|sent| - 1]).error
  }

  /** Sends the chunks one by one, stopping at the first failure; `sent`
      records every request handed to the service, in order. */
  method RelayChunks(chunks: seq<string>, chatbotId: Option<string>, conversationId: Option<string>, send: Service)
    returns (r: Result<string, string>, sent: seq<Request>)
    ensures RelayOutcome(chunks, chatbotId, conversationId, send, r, sent)
  {
    var botMessage := "";
    sent := [];
    var i := 0;
    while i < |chunks|
      invariant i <= |chunks| && |sent| == i
      invariant forall j :: 0 <= j < i ==> sent[j] == RequestFor(chunks[j], chatbotId, conversationId)
      invariant AllSucceeded(send, sent)
      invariant botMessage == Accumulated(Replies(send, sent))
    {
      var request := RequestFor(chunks[i], chatbotId, conversationId);
      var reply := send(i, request);
      ghost var before := sent;
      sent := sent + [request];
      if reply.Failure? {
        return Failure(ErrorPrefix + reply.error), sent;
      }
      botMessage := botMessage + reply.value + "\n";
      assert Replies(send, sent) == Replies(send, before) + [reply.value];
      assert Replies(send, sent)[..i] == Replies(send, before);
      i := i + 1;
    }
    r := Success(Strip(botMessage));
  }

  /** An empty chunk list sends nothing and yields the empty message. */
  lemma RelayEmpty(chatbotId: Option<string>, conversationId: Option<string>, send: Service,
                   r: Result<string, string>, sent: seq<Request>)
    requires RelayOutcome([], chatbotId, conversationId, send, r, sent)
    ensures sent == [] && r == Success("")
  {
  }

  /** If chunk i's request fails and all earlier ones succeed, exactly the
      requests for chunks 0..i were sent and the relay fails with chunk i's
      failure. */
  lemma RelayStopsAtFirstFailure(chunks: seq<string>, chatbotId: Option<string>, conversationId: Option<string>,
                                 send: Service, r: Result<string, string>, sent: seq<Request>, i: nat)
    requires RelayOutcome(chunks, chatbotId, conversationId, send, r, sent)
    requires i < |chunks|
    requires send(i, RequestFor(chunks[i], chatbotId, conversationId)).Failure?
    requires forall j :: 0 <= j < i ==> send(j, RequestFor(chunks[j], chatbotId, conversationId)).Success?
    ensures |sent| == i + 1
    ensures r == Failure(ErrorPrefix + send(i, RequestFor(chunks[i], chatbotId, conversationId)).error)
  {
    assert i < |sent| ==> sent[i] == RequestFor(chunks[i], chatbotId, conversationId);
  }

  /** If every chunk's request succeeds, every chunk is sent and the message
      is the replies joined by newlines, stripped of outer whitespace. */
  lemma RelayAllSucceed(chunks: seq<string>, chatbotId: Option<string>, conversationId: Option<string>,
                        send: Service, r: Result<string, string>, sent: seq<Request>)
    requires RelayOutcome(chunks, chatbotId, conversationId, send, r, sent)
    requires forall j :: 0 <= j < |chunks| ==> send(j, RequestFor(chunks[j], chatbotId, conversationId)).Success?
    ensures |sent| == |chunks|
    ensures r.Success?
    ensures chunks != [] ==> r.value == Strip(JoinLines(Replies(send, sent)) + "\n")
    ensures chunks == [] ==> r.value == ""
  {
    if chunks != [] {
      AccumulatedJoin(Replies(send, sent));
    }
  }

  /** The position of the first chunk, from `from` on, whose request the
      service refuses, or `None` when it accepts all of them. */
  function FirstFailure(chunks: seq<string>, chatbotId: Option<string>, conversationId: Option<string>,
                        send: Service, from: nat): (first: Option<nat>)
    ensures first.Some? ==>
              from <= first.value < |chunks|
              && send(first.value, RequestFor(chunks[first.value], chatbotId, conversationId)).Failure?
    ensures forall j :: from <= j < |chunks| && (first.None? || j < first.value) ==>
              send(j, RequestFor(chunks[j], chatbotId, conversationId)).Success?
    decreases |chunks| - from
  {
    if from >= |chunks| then None
    else if send(from, RequestFor(chunks[from], chatbotId, conversationId)).Failure? then Some(from)
    else FirstFailure(chunks, chatbotId, conversationId, send, from + 1)
  }

  /** The relay ends exactly at the first refused chunk: with a failure after
      sending chunks 0..i when chunk i is the first refused one, and with
      success after sending every chunk when none is refused. */
  lemma RelayEndsAtFirstFailure(chunks: seq<string>, chatbotId: Option<string>, conversationId: Option<string>,
                                send: Service, r: Result<string, string>, sent: seq<Request>)
    requires RelayOutcome(chunks, chatbotId, conversationId, send, r, sent)
    ensures match FirstFailure(chunks, chatbotId, conversationId, send, 0)
            case Some(i) =>
              |sent| == i + 1 && r == Failure(ErrorPrefix + send(i, RequestFor(chunks[i], chatbotId, conversationId)).error)
            case None => |sent| == |chunks| && r.Success?
  {
    match FirstFailure(chunks, chatbotId, conversationId, send, 0)
    case Some(i) =>
      RelayStopsAtFirstFailure(chunks, chatbotId, conversationId, send, r, sent, i);
    case None =>
      RelayAllSucceed(chunks, chatbotId, conversationId, send, r, sent);
  }

  /** The relay's outcome is determined by its inputs: two runs that both
      keep the promise send the same requests and end the same way. */
  lemma RelayDeterministic(chunks: seq<string>, chatbotId: Option<string>, conversationId: Option<string>,
                           send: Service, r1: Result<string, string>, sent1: seq<Request>,
                           r2: Result<string, string>, sent2: seq<Request>)
    requires RelayOutcome(chunks, chatbotId, conversationId, send, r1, sent1)
    requires RelayOutcome(chunks, chatbotId, conversationId, send, r2, sent2)
    ensures sent1 == sent2 && r1 == r2
  {
    RelayEndsAtFirstFailure(chunks, chatbotId, conversationId, send, r1, sent1);
    RelayEndsAtFirstFailure(chunks, chatbotId, conversationId, send, r2, sent2);
    assert sent1 == sent2;
  }

  /** When the first reply does not start and the last reply does not end
      with whitespace, the message is exactly the replies joined by single
      newlines: the final newline is the only thing stripped. */
  lemma StripJoined(replies: seq<string>)
    requires replies != []
    requires replies[0] != [] && !IsSpace(replies[0][0])
    requires replies[|replies| - 1] != [] && !IsSpace(replies[|replies| - 1][|replies[|replies| - 1]| - 1])
    ensures Strip(Accumulated(replies)) == JoinLines(replies)
  {
    AccumulatedJoin(replies);
    var joined := JoinLines(replies);
    JoinLinesEnds(replies);
    var s := joined + "\n";
    assert s[..0] == [] && s[|joined|..] == "\n";
    StripUnique(s, 0, |joined|);
    assert s[0..|joined|] == joined;
  }

  /** Two replies "ABC" and "DEF" make the message "ABC\nDEF": one newline
      between replies and none at the end. */
  lemma TwoRepliesMessage()
    ensures Strip(Accumulated(["ABC", "DEF"])) == "ABC\nDEF"
  {
    StripJoined(["ABC", "DEF"]);
    assert ["ABC", "DEF"][..1] == ["ABC"];
  }

  /** The joined replies start with the first reply's first character and
      end with the last reply's last character. */
  lemma {:induction false} JoinLinesEnds(replies: seq<string>)
    requires replies != []
    requires replies[0] != [] && replies[|replies| - 1] != []
    ensures var joined := JoinLines(replies);
            joined != [] && joined[0] == replies[0][0]
            && joined[|joined| - 1] == replies[|replies| - 1][|replies[|replies| - 1]| - 1]
    decreases |replies|
  {
    if |replies| > 1 {
      var front := replies[..|replies| - 1];
      if |front| > 1 {
        JoinLinesFirst(front);
      }
    }
  }

  /** The joined replies start with the first reply. */
  lemma {:induction false} JoinLinesFirst(replies: seq<string>)
    requires replies != []
    ensures |replies[0]| <= |JoinLines(replies)| && JoinLines(replies)[..|replies[0]|] == replies[0]
    decreases |replies|
  {
    if |replies| > 1 {
      var front := replies[..|replies| - 1];
      JoinLinesFirst(front);
      assert front[0] == replies[0];
    }
  }
}
