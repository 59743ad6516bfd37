/** The wire types of the upstream model API (app/llmcenter/cmd/rpc/types)
    and the abstractions that stand in for the services' collaborators: the
    gRPC stream to the gateway, the Redis token store and the messages
    table. */
module LlmTypes {
  import opened Wrappers
  import Utf8

  /* ---------------- upstream request and response bodies ---------------- */

  datatype LlmMessage = LlmMessage(role: string, contentType: string, content: string)

  datatype LlmRequest = LlmRequest(
    flowId: string,
    uid: string,
    agentUserInput: seq<Utf8.byte>,  // the prompt as UTF-8 bytes: it may hold a cut rune
    img: string,
    stream: bool,
    chatId: string,
    history: seq<LlmMessage>)

  datatype ResumeRequest = ResumeRequest(eventId: string, eventType: string, content: string)

  datatype Delta = Delta(role: string, content: string)
  datatype Choice = Choice(delta: Delta, finishReason: string)
  datatype EventValue = EventValue(valueType: string, content: string)
  datatype EventData = EventData(eventId: string, eventType: string, value: EventValue)

  /** One decoded `data:` line of the upstream event stream. */
  datatype Frame = Frame(
    code: int,
    message: string,
    id: string,
    choices: seq<Choice>,
    eventData: Option<EventData>)
  {
    predicate IsInterrupt() {
      eventData.Some? && eventData.value.eventType == "interrupt"
    }

    /** The first choice's delta text, or "" when there is no choice. */
    function FirstDelta(): string {
      if |choices| > 0 then choices[0].delta.content else ""
    }

    predicate IsStop() {
      |choices| > 0 && choices[0].finishReason == "stop"
    }
  }

  /** `json.Unmarshal` of a line into a frame: `None` when the line is not
      a valid frame. The decoder itself is not modelled. */
  type Decoder = string -> Option<Frame>

  /** The upstream response body as the line scanner sees it: the lines it
      yields, then whether it stops on a read error instead of at the end. */
  datatype Body = Body(lines: seq<string>, readError: bool)

  /** What the HTTP round trip to the model API produced. */
  datatype Upstream =
    | RequestNotBuilt       // http.NewRequestWithContext failed
    | CallFailed            // client.Do failed
    | Response(status: int, body: Body)

  /* ---------------- the gRPC stream to the gateway ---------------- */

  /** The events the rpc service sends to the gateway. */
  datatype Event =
    | MessageEvent(chunk: string)
    | InterruptEvent(conversationId: string, contentType: string, content: string)
    | EndEvent(conversationId: string, messageId: string)

  /** The server side of a gRPC stream: the events sent so far, and how many
      sends the peer accepts before the stream breaks. A send beyond that
      fails, and so does every later one. */
  datatype Outbox = Outbox(sent: seq<Event>, capacity: nat) {
    function Send(e: Event): (r: (Outbox, bool))
      ensures r.1 ==> r.0.sent == sent + [e]
      ensures !r.1 ==> r.0 == this
      ensures r.0.capacity == capacity
      ensures r.1 <==> |sent| < capacity
    {
      if |sent| < capacity then (Outbox(sent + [e], capacity), true) else (this, false)
    }
  }

  /* ---------------- Redis ---------------- */

  datatype KvEntry = KvEntry(value: string, ttl: int)

  /** The Redis keys the services use, with the value and time to live last
      written. Each operation takes whether the server call fails. */
  datatype Kv = Kv(entries: map<string, KvEntry>) {
    /** `Setex`: on success the key holds the value with that TTL. */
    function Setex(key: string, value: string, ttl: int, fails: bool): (r: (Kv, bool))
      ensures r.1 <==> !fails
      ensures r.1 ==> r.0.entries == entries[key := KvEntry(value, ttl)]
      ensures !r.1 ==> r.0 == this
    {
      if fails then (this, false) else (Kv(entries[key := KvEntry(value, ttl)]), true)
    }

    /** `Get`: the stored value, "" for a missing key; a failing call returns
        "" and an error. */
    function Get(key: string, fails: bool): (r: (string, bool))
      ensures r.1 <==> !fails
      ensures fails ==> r.0 == ""
      ensures !fails && key in entries ==> r.0 == entries[key].value
      ensures !fails && key !in entries ==> r.0 == ""
    {
      if fails then ("", false)
      else if key in entries then (entries[key].value, true)
      else ("", true)
    }

    /** `Del`: a successful call removes the key; a failing one changes
        nothing. */
    function Del(key: string, fails: bool): (r: Kv)
      ensures !fails ==> key !in r.entries && forall k | k in entries && k != key :: k in r.entries && r.entries[k] == entries[k]
      ensures fails ==> r == this
    {
      if fails then this else Kv(entries - {key})
    }
  }

  /* ---------------- the conversations and messages tables ---------------- */

  datatype Conversation = Conversation(conversationId: string, userId: int, title: string)

  datatype StoredMessage = StoredMessage(
    messageId: string,
    conversationId: string,
    role: string,
    content: string,
    contentType: string,
    metadata: Option<string>)  // a NULL column is None

  /** The messages table, in insertion order. */
  datatype Messages = Messages(rows: seq<StoredMessage>) {
    /** `MessageModel.Insert`, which fails when `fails` holds. */
    function Insert(m: StoredMessage, fails: bool): (r: (Messages, bool))
      ensures r.1 <==> !fails
      ensures r.1 ==> r.0.rows == rows + [m]
      ensures !r.1 ==> r.0 == this
    {
      if fails then (this, false) else (Messages(rows + [m]), true)
    }
  }
}
