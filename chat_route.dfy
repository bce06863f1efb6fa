/**
 * The chat endpoint. `POST` runs its rejection checks in a fixed order,
 * forwards the last message to the agent, and relays the agent's text
 * stream to the client as `data: <json>\n\n` frames, each carrying the
 * reply so far, closed by one `data: [DONE]\n\n` frame. `GET` answers a
 * health probe.
 */
module ChatRoute {
  import opened Wrappers
  import opened Env
  import opened JsText
  import opened JsonString

  const OpenAiKey := "OPENAI_API_KEY"
  const MissingKeyError := "Missing " + OpenAiKey + " environment variable"
  const AgentNotFoundError := "Agent not found - check Mastra configuration"
  const InvalidMessageFormat := "Invalid message format"
  const InternalServerError := "Internal Server Error"

  datatype Message = Message(role: string, content: string)

  /** The JSON request body; a field that was not sent is None (`undefined`). */
  datatype ChatBody = ChatBody(messages: seq<Message>, threadId: Option<string>, resourceId: Option<string>)

  /** The arguments of `agent.stream`: the prompt and the memory thread and resource. */
  datatype AgentCall = AgentCall(prompt: string, thread: Option<string>, resource: Option<string>)

  /** The answer of `POST`, before any stream bytes. */
  datatype ChatResponse =
    | JsonError(status: nat, error: string)  // a JSON body `{"error": ...}`
    | TextError(status: nat, text: string)   // a plain-text body
    | Streamed(call: AgentCall)              // status 200, the body is the relayed stream

  /**
   * `POST` up to the opening of the stream: the credential is checked before
   * the body is read, the agent before the messages, and only the last
   * message is forwarded. `body` is what `req.json()` gave; `agentFound`
   * whether the framework knows the agent.
   */
  function HandleChat(env: Environment, body: Outcome<ChatBody>, agentFound: bool): (r: ChatResponse)
    ensures !IsSet(env, OpenAiKey) ==>
              r == JsonError(500, MissingKeyError) && Contains(r.error, OpenAiKey)
    ensures IsSet(env, OpenAiKey) && body.Thrown? ==> r == TextError(500, InternalServerError)
    ensures IsSet(env, OpenAiKey) && body.Ok? && !agentFound ==> r == JsonError(404, AgentNotFoundError)
    ensures IsSet(env, OpenAiKey) && body.Ok? && agentFound
            && (body.value.messages == [] || Last(body.value.messages).role != "user")
            ==> r == TextError(400, InvalidMessageFormat)
    ensures r.Streamed? <==>
              IsSet(env, OpenAiKey) && body.Ok? && agentFound
              && body.value.messages != [] && Last(body.value.messages).role == "user"
    ensures r.Streamed? ==>
              r.call == AgentCall(Last(body.value.messages).content, body.value.threadId, body.value.resourceId)
  {
    MissingKeyNamesVariable();
    if !IsSet(env, OpenAiKey) then JsonError(500, MissingKeyError)
    else if body.Thrown? then TextError(500, InternalServerError)
    else if !agentFound then JsonError(404, AgentNotFoundError)
    else
      var messages := body.value.messages;
      if messages == [] || Last(messages).role != "user" then TextError(400, InvalidMessageFormat)
      else Streamed(AgentCall(Last(messages).content, body.value.threadId, body.value.resourceId))
  }

  function Last(messages: seq<Message>): Message
    requires messages != []
  {
    messages[|messages| - 1]
  }

  lemma MissingKeyNamesVariable()
    ensures Contains(MissingKeyError, OpenAiKey)
  {
    ContainsMiddle("Missing ", OpenAiKey, " environment variable");
  }

  /** Requests that differ only in the messages before the last one get the same answer. */
  lemma OnlyLastMessageForwarded(env: Environment, b1: ChatBody, b2: ChatBody, agentFound: bool)
    requires b1.messages != [] && b2.messages != []
    requires Last(b1.messages) == Last(b2.messages)
    requires b1.threadId == b2.threadId && b1.resourceId == b2.resourceId
    ensures HandleChat(env, Ok(b1), agentFound) == HandleChat(env, Ok(b2), agentFound)
  {
  }

  /** `GET`: the health probe answers 200 with a JSON body carrying the clock reading it is given. */
  datatype HealthResponse = HealthResponse(status: nat, body: string)

  const HealthStatus := "{\"status\":\"ok\","

  function Health(timestamp: string): (r: HealthResponse)
    ensures r.status == 200
    ensures IsPrefix(HealthStatus, r.body)
  {
    HealthResponse(200, HealthStatus + "\"message\":\"Chat API is running\",\"timestamp\":"
                        + Quote(timestamp) + "}")
  }

  // ---------------------------------------------------------------------
  // The relay

  const AssistantRole := "assistant"

  /** A frame of the response stream: a text frame carrying the reply so far, or the end marker. */
  datatype Frame =
    | TextFrame(id: string, role: string, content: string, createdAt: string)
    | DoneMarker

  /**
   * A frame as it goes on the wire: `data: ` and the JSON of the message
   * (`JSON.stringify({ id, role, content, createdAt })`), or `data: [DONE]`,
   * followed by a blank line.
   */
  function Wire(f: Frame): (w: string)
    ensures |w| >= 8 && w[..6] == "data: " && w[|w| - 2..] == "\n\n"
    ensures w == "data: [DONE]\n\n" <==> f == DoneMarker
  {
    match f
    case TextFrame(id, role, content, createdAt) =>
      var w := "data: " + "{\"id\":" + Quote(id) + ",\"role\":" + Quote(role) + ",\"content\":" + Quote(content)
               + ",\"createdAt\":" + Quote(createdAt) + "}" + "\n\n";
      assert w[6] == '{';
      w
    case DoneMarker => "data: [DONE]\n\n"
  }

  /** The wire text of a run of frames, in order. */
  function Encode(fs: seq<Frame>): (ws: seq<string>)
    ensures |ws| == |fs|
  {
    if fs == [] then [] else Encode(fs[..|fs| - 1]) + [Wire(fs[|fs| - 1])]
  }

  /** The reply so far: the chunks concatenated in arrival order. */
  function Concat(chunks: seq<string>): string
  {
    if chunks == [] then "" else Concat(chunks[..|chunks| - 1]) + chunks[|chunks| - 1]
  }

  /** How the upstream text stream ended after yielding its chunks. */
  datatype StreamEnd = Completed | Raised(error: string)

  /** The agent's text stream: the chunks it yields, then how it ends. */
  datatype Upstream = Upstream(chunks: seq<string>, end: StreamEnd)

  /**
   * The text frames for a run of chunks: one per chunk, the frame for the
   * last chunk carrying all of them concatenated, with the identifier and
   * timestamp drawn for it (`crypto.randomUUID()` and `new Date()` are the
   * functions `ids` and `stamps` of the frame's position).
   */
  function TextFrames(chunks: seq<string>, ids: nat -> string, stamps: nat -> string): (fs: seq<Frame>)
    ensures |fs| == |chunks|
    ensures forall i :: 0 <= i < |fs| ==> fs[i].TextFrame?
  {
    if chunks == [] then []
    else
      var n := |chunks| - 1;
      TextFrames(chunks[..n], ids, stamps) + [TextFrame(ids(n), AssistantRole, Concat(chunks), stamps(n))]
  }

  /** Everything the relay sends: the text frames, then the end marker unless the upstream raised. */
  function RelayedFrames(up: Upstream, ids: nat -> string, stamps: nat -> string): seq<Frame>
  {
    TextFrames(up.chunks, ids, stamps) + (if up.end.Completed? then [DoneMarker] else [])
  }

  datatype StreamState = Readable | Closed | Errored(reason: string)

  /**
   * The response stream's controller: every chunk handed to `enqueue` so
   * far, and whether the stream is still open. What the client has read is
   * not tracked; `error` discards chunks still waiting to be read, so for an
   * errored stream `enqueued` is what was sent towards the client, not what
   * arrived.
   */
  class StreamController {
    var enqueued: seq<string>
    var state: StreamState

    constructor ()
      ensures enqueued == [] && state == Readable
    {
      enqueued := [];
      state := Readable;
    }

    method Enqueue(chunk: string)
      requires state == Readable
      modifies this
      ensures enqueued == old(enqueued) + [chunk] && state == Readable
    {
      enqueued := enqueued + [chunk];
    }

    method Close()
      requires state == Readable
      modifies this
      ensures enqueued == old(enqueued) && state == Closed
    {
      state := Closed;
    }

    method Error(reason: string)
      requires state == Readable
      modifies this
      ensures enqueued == old(enqueued) && state == Errored(reason)
    {
      state := Errored(reason);
    }
  }

  /** One more chunk adds one frame, carrying the reply so far with that chunk. */
  lemma TextFramesSnoc(chunks: seq<string>, i: nat, ids: nat -> string, stamps: nat -> string)
    requires i < |chunks|
    ensures TextFrames(chunks[..i + 1], ids, stamps)
            == TextFrames(chunks[..i], ids, stamps) + [TextFrame(ids(i), AssistantRole, Concat(chunks[..i + 1]), stamps(i))]
  {
    assert chunks[..i + 1][..i] == chunks[..i];
  }

  lemma EncodeSnoc(fs: seq<Frame>, f: Frame)
    ensures Encode(fs + [f]) == Encode(fs) + [Wire(f)]
  {
    assert (fs + [f])[..|fs|] == fs;
  }

  /** What one pass of the relay loop appends, given the reply so far. */
  lemma RelayStep(chunks: seq<string>, i: nat, sofar: string, ids: nat -> string, stamps: nat -> string)
    requires i < |chunks| && sofar == Concat(chunks[..i])
    ensures Concat(chunks[..i + 1]) == sofar + chunks[i]
    ensures Encode(TextFrames(chunks[..i + 1], ids, stamps))
            == Encode(TextFrames(chunks[..i], ids, stamps)) + [Wire(TextFrame(ids(i), AssistantRole, sofar + chunks[i], stamps(i)))]
  {
    ConcatSnoc(chunks, i);
    TextFramesSnoc(chunks, i, ids, stamps);
    EncodeSnoc(TextFrames(chunks[..i], ids, stamps), TextFrame(ids(i), AssistantRole, sofar + chunks[i], stamps(i)));
  }

  /**
   * The `for await` loop of the stream's `start`: accumulate each chunk into
   * the reply so far and enqueue a frame carrying it.
   */
  method RelayChunks(controller: StreamController, chunks: seq<string>, ids: nat -> string, stamps: nat -> string)
    requires controller.enqueued == [] && controller.state == Readable
    modifies controller
    ensures controller.enqueued == Encode(TextFrames(chunks, ids, stamps)) && controller.state == Readable
  {
    var fullResponse := "";
    var i := 0;
    while i < |chunks|
      invariant 0 <= i <= |chunks|
      invariant controller.state == Readable
      invariant fullResponse == Concat(chunks[..i])
      invariant controller.enqueued == Encode(TextFrames(chunks[..i], ids, stamps))
    {
      RelayStep(chunks, i, fullResponse, ids, stamps);
      fullResponse := fullResponse + chunks[i];
      controller.Enqueue(Wire(TextFrame(ids(i), AssistantRole, fullResponse, stamps(i))));
      i := i + 1;
    }
    assert chunks[..i] == chunks;
  }

  /**
   * The stream's `start`: relay the chunks; on normal completion enqueue
   * `[DONE]` and close, and if the upstream raises, error the stream instead.
   */
  method Relay(controller: StreamController, up: Upstream, ids: nat -> string, stamps: nat -> string)
    requires controller.enqueued == [] && controller.state == Readable
    modifies controller
    ensures controller.enqueued == Encode(RelayedFrames(up, ids, stamps))
    ensures controller.state == if up.end.Completed? then Closed else Errored(up.end.error)
  {
    RelayChunks(controller, up.chunks, ids, stamps);
    match up.end {
      case Completed =>
        EncodeSnoc(TextFrames(up.chunks, ids, stamps), DoneMarker);
        controller.Enqueue(Wire(DoneMarker));
        controller.Close();
      case Raised(e) =>
        assert RelayedFrames(up, ids, stamps) == TextFrames(up.chunks, ids, stamps);
        controller.Error(e);
    }
  }

  // ---------------------------------------------------------------------
  // Properties of the relayed frames

  lemma ConcatSnoc(chunks: seq<string>, i: nat)
    requires i < |chunks|
    ensures Concat(chunks[..i + 1]) == Concat(chunks[..i]) + chunks[i]
  {
    assert chunks[..i + 1][..i] == chunks[..i];
  }

  /** Frame i is an assistant frame carrying the reply up to and including chunk i. */
  lemma {:induction false} FrameContent(chunks: seq<string>, ids: nat -> string, stamps: nat -> string, i: nat)
    requires i < |chunks|
    ensures TextFrames(chunks, ids, stamps)[i]
            == TextFrame(ids(i), AssistantRole, Concat(chunks[..i + 1]), stamps(i))
  {
    var n := |chunks| - 1;
    if i < n {
      FrameContent(chunks[..n], ids, stamps, i);
      assert chunks[..n][..i + 1] == chunks[..i + 1];
    } else {
      assert chunks[..i + 1] == chunks;
    }
  }

  /** Each frame adds exactly its own chunk to the previous frame's reply. */
  lemma FrameAddsChunk(chunks: seq<string>, ids: nat -> string, stamps: nat -> string, i: nat)
    requires i < |chunks|
    ensures TextFrames(chunks, ids, stamps)[i].content == Concat(chunks[..i]) + chunks[i]
    ensures 0 < i ==> TextFrames(chunks, ids, stamps)[i].content
                      == TextFrames(chunks, ids, stamps)[i - 1].content + chunks[i]
  {
    var fs := TextFrames(chunks, ids, stamps);
    FrameContent(chunks, ids, stamps, i);
    ConcatSnoc(chunks, i);
    if 0 < i {
      var j := i - 1;
      FrameContent(chunks, ids, stamps, j);
      assert chunks[..j + 1] == chunks[..i];
    }
  }

  /** The last frame carries the whole reply: all chunks, in order, none dropped or repeated. */
  lemma LastFrameIsWholeReply(chunks: seq<string>, ids: nat -> string, stamps: nat -> string)
    requires chunks != []
    ensures TextFrames(chunks, ids, stamps)[|chunks| - 1].content == Concat(chunks)
  {
  }

  /** Each frame's reply is a prefix of every later frame's reply. */
  lemma {:induction false} RepliesGrowByPrefix(chunks: seq<string>, i: nat, j: nat)
    requires i <= j <= |chunks|
    ensures IsPrefix(Concat(chunks[..i]), Concat(chunks[..j]))
    decreases j - i
  {
    if i < j {
      RepliesGrowByPrefix(chunks, i, j - 1);
      ConcatSnoc(chunks, j - 1);
    }
  }

  /** The frames sent for the first k chunks are the first k frames sent for all of them. */
  lemma {:induction false} TextFramesPrefix(chunks: seq<string>, k: nat, ids: nat -> string, stamps: nat -> string)
    requires k <= |chunks|
    ensures TextFrames(chunks[..k], ids, stamps) == TextFrames(chunks, ids, stamps)[..k]
    decreases |chunks|
  {
    if k < |chunks| {
      var n := |chunks| - 1;
      TextFramesPrefix(chunks[..n], k, ids, stamps);
      assert chunks[..n][..k] == chunks[..k];
    } else {
      assert chunks[..k] == chunks;
    }
  }

  /** On normal completion: n assistant frames, then exactly one end marker, which is last. */
  lemma CompletedRelay(up: Upstream, ids: nat -> string, stamps: nat -> string)
    requires up.end.Completed?
    ensures var fs := RelayedFrames(up, ids, stamps);
            |fs| == |up.chunks| + 1 && fs[|up.chunks|] == DoneMarker
            && forall i :: 0 <= i < |up.chunks| ==> fs[i].TextFrame? && fs[i].role == AssistantRole
  {
    forall i | 0 <= i < |up.chunks|
      ensures TextFrames(up.chunks, ids, stamps)[i].TextFrame? && TextFrames(up.chunks, ids, stamps)[i].role == AssistantRole
    {
      FrameContent(up.chunks, ids, stamps, i);
    }
  }

  /**
   * If the upstream raises after k chunks, no end marker is sent and the k
   * frames already sent are exactly those a completed stream starting with
   * the same chunks would have sent first.
   */
  lemma RaisedRelay(chunks: seq<string>, k: nat, error: string, ids: nat -> string, stamps: nat -> string)
    requires k <= |chunks|
    ensures var fs := RelayedFrames(Upstream(chunks[..k], Raised(error)), ids, stamps);
            fs == RelayedFrames(Upstream(chunks, Completed), ids, stamps)[..k]
            && DoneMarker !in fs
  {
    TextFramesPrefix(chunks, k, ids, stamps);
    var fs := TextFrames(chunks[..k], ids, stamps);
    forall i | 0 <= i < k
      ensures fs[i] != DoneMarker
    {
      FrameContent(chunks[..k], ids, stamps, i);
    }
  }

}
