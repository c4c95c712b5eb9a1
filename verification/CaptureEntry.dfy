/** A captured request, the line written for it and the training sample exported from that line. */
module CaptureEntry {
  import opened Lines
  import opened Json

  /** `None` is a nil body, as a size gate leaves it. */
  type Body = Option<Bytes>

  datatype Entry = Entry(
    requestId: string,
    projectId: int,
    routeName: string,
    publicModelName: string,
    upstreamModelName: string,
    providerName: string,
    stream: bool,
    streamCompleted: bool,
    statusCode: int,
    latencyMs: int,
    ttfcMs: Option<int>,
    promptTokens: Option<int>,
    completionTokens: Option<int>,
    requestBody: Body,
    responseBody: Body,
    bodySkipped: bool)

  function BodyJson(codec: Codec, body: Body): Option<Json> {
    if body == None then Some(Null) else codec.unmarshal(body.value)
  }

  function BodySize(body: Body): nat {
    if body == None then 0 else |body.value|
  }

  function OptionalNumber(n: Option<int>): Json {
    if n == None then Null else Integer(n.value)
  }

  function LineFields(e: Entry, capturedAt: string, request: Json, response: Json): map<string, Json> {
    var fields := map[
      "request_id" := String(e.requestId),
      "project_id" := Integer(e.projectId),
      "route_name" := String(e.routeName),
      "public_model_name" := String(e.publicModelName),
      "upstream_model_name" := String(e.upstreamModelName),
      "provider_name" := String(e.providerName),
      "stream" := Bool(e.stream),
      "status_code" := Integer(e.statusCode),
      "latency_ms" := Integer(e.latencyMs),
      "time_to_first_chunk_ms" := OptionalNumber(e.ttfcMs),
      "prompt_tokens" := OptionalNumber(e.promptTokens),
      "completion_tokens" := OptionalNumber(e.completionTokens),
      "request_body" := request,
      "response_body" := response,
      "captured_at" := String(capturedAt),
      "schema_version" := Integer(1)];
    if e.stream then fields["stream_completed" := Bool(e.streamCompleted)] else fields
  }

  /** The line written for an entry. A body that is not JSON makes the marshaller fail and leaves the line empty. */
  function MarshalJsonl(codec: Codec, e: Entry, capturedAt: string): Bytes {
    match (BodyJson(codec, e.requestBody), BodyJson(codec, e.responseBody))
    case (Some(request), Some(response)) => codec.marshal(Object(LineFields(e, capturedAt, request, response)))
    case _ => []
  }

  lemma {:induction false} MarshalledLine(codec: Codec, e: Entry, capturedAt: string)
    requires Lawful(codec)
    ensures LfFree(MarshalJsonl(codec, e, capturedAt))
    ensures !EndsWithCr(MarshalJsonl(codec, e, capturedAt))
  {
    match (BodyJson(codec, e.requestBody), BodyJson(codec, e.responseBody))
    case (Some(request), Some(response)) =>
      assert LfFree(codec.marshal(Object(LineFields(e, capturedAt, request, response))));
    case _ =>
  }

  function ExtractMessages(body: Json): Json {
    match AsMap(body)
    case Some(fields) => if "messages" in fields then fields["messages"] else body
    case None => body
  }

  function ExtractCompletion(body: Json): Json {
    match AsMap(body)
    case None => body
    case Some(resp) =>
      if "choices" !in resp then body
      else match AsMaps(resp["choices"])
        case None => body
        case Some(choices) =>
          if choices == [] || "message" !in choices[0] then body
          else match AsMap(choices[0]["message"])
            case None => body
            case Some(message) => if "content" in message then message["content"] else body
  }

  function OpenAIFields(raw: map<string, Json>): map<string, Json> {
    (if "request_body" in raw then map["messages" := ExtractMessages(raw["request_body"])] else map[])
    + (if "response_body" in raw then map["completion" := ExtractCompletion(raw["response_body"])] else map[])
    + (if "public_model_name" in raw then map["model" := raw["public_model_name"]] else map[])
  }

  /** The `openai` export of a stored line; a line that is no JSON object is passed on as it is. */
  function TransformToOpenAI(codec: Codec, line: Bytes): Bytes {
    match codec.unmarshal(line)
    case None => line
    case Some(j) =>
      match AsMap(j)
      case None => line
      case Some(raw) => codec.marshal(Object(OpenAIFields(raw)))
  }

  // What the functions above mean, by the names of the fields

  /**
   The line written for an entry whose bodies are JSON, or missing, holds these fields and no others; for any other
   entry it is empty.
   */
  lemma {:induction false} LineOfEntry(codec: Codec, e: Entry, capturedAt: string)
    requires Lawful(codec)
    ensures (e.requestBody != None && codec.unmarshal(e.requestBody.value) == None)
            || (e.responseBody != None && codec.unmarshal(e.responseBody.value) == None)
            ==> MarshalJsonl(codec, e, capturedAt) == []
    ensures (e.requestBody == None || codec.unmarshal(e.requestBody.value) != None)
            && (e.responseBody == None || codec.unmarshal(e.responseBody.value) != None) ==>
      var request := if e.requestBody == None then Null else codec.unmarshal(e.requestBody.value).value;
      var response := if e.responseBody == None then Null else codec.unmarshal(e.responseBody.value).value;
      codec.unmarshal(MarshalJsonl(codec, e, capturedAt)) == Some(Object(LineFields(e, capturedAt, request, response)))
  {
    match (BodyJson(codec, e.requestBody), BodyJson(codec, e.responseBody))
    case (Some(request), Some(response)) =>
      var raw := LineFields(e, capturedAt, request, response);
      assert codec.unmarshal(codec.marshal(Object(raw))) == Some(Object(raw));
    case _ =>
  }

  /** The fields of a line; whether the stream was completed is there for streams only. */
  lemma {:induction false} LineKeys(e: Entry, capturedAt: string, request: Json, response: Json)
    ensures LineFields(e, capturedAt, request, response).Keys
         == {"request_id", "project_id", "route_name", "public_model_name", "upstream_model_name", "provider_name",
             "stream", "status_code", "latency_ms", "time_to_first_chunk_ms", "prompt_tokens", "completion_tokens",
             "request_body", "response_body", "captured_at", "schema_version"}
            + if e.stream then {"stream_completed"} else {}
  {
  }

  lemma {:induction false} LineOrigin(e: Entry, capturedAt: string, request: Json, response: Json, f: map<string, Json>)
    requires f == LineFields(e, capturedAt, request, response)
    ensures "request_id" in f && f["request_id"] == String(e.requestId)
    ensures "project_id" in f && f["project_id"] == Integer(e.projectId)
    ensures "captured_at" in f && f["captured_at"] == String(capturedAt)
    ensures "schema_version" in f && f["schema_version"] == Integer(1)
  {
  }

  lemma {:induction false} LineRoute(e: Entry, capturedAt: string, request: Json, response: Json, f: map<string, Json>)
    requires f == LineFields(e, capturedAt, request, response)
    ensures "route_name" in f && f["route_name"] == String(e.routeName)
    ensures "public_model_name" in f && f["public_model_name"] == String(e.publicModelName)
    ensures "upstream_model_name" in f && f["upstream_model_name"] == String(e.upstreamModelName)
    ensures "provider_name" in f && f["provider_name"] == String(e.providerName)
  {
  }

  lemma {:induction false} LineValues(e: Entry, capturedAt: string, request: Json, response: Json, f: map<string, Json>)
    requires f == LineFields(e, capturedAt, request, response)
    ensures "stream" in f && f["stream"] == Bool(e.stream)
    ensures e.stream ==> "stream_completed" in f && f["stream_completed"] == Bool(e.streamCompleted)
    ensures "status_code" in f && f["status_code"] == Integer(e.statusCode)
    ensures "latency_ms" in f && f["latency_ms"] == Integer(e.latencyMs)
    ensures "request_body" in f && f["request_body"] == request
    ensures "response_body" in f && f["response_body"] == response
  {
  }

  /** A count that is not known is null. */
  lemma {:induction false} LineCounts(e: Entry, capturedAt: string, request: Json, response: Json, f: map<string, Json>)
    requires f == LineFields(e, capturedAt, request, response)
    ensures "time_to_first_chunk_ms" in f
         && f["time_to_first_chunk_ms"] == if e.ttfcMs == None then Null else Integer(e.ttfcMs.value)
    ensures "prompt_tokens" in f
         && f["prompt_tokens"] == if e.promptTokens == None then Null else Integer(e.promptTokens.value)
    ensures "completion_tokens" in f
         && f["completion_tokens"] == if e.completionTokens == None then Null else Integer(e.completionTokens.value)
  {
  }

  /** The messages are those of a request that has some; any other value stands for itself. */
  lemma {:induction false} MessagesOf(body: Json)
    ensures ExtractMessages(body)
         == if body.Object? && "messages" in body.fields then body.fields["messages"] else body
  {
  }

  /** What decodes into a map. */
  predicate IsMap(j: Json) {
    j.Object? || j.Null?
  }

  /** A response has a list of choices, all of them maps, the first of which has a message with a content. */
  predicate HasContent(response: Json) {
    && response.Object? && "choices" in response.fields
    && var choices := response.fields["choices"];
       choices.Array? && choices.elements != []
       && (forall k :: 0 <= k < |choices.elements| ==> IsMap(choices.elements[k]))
       && var first := choices.elements[0];
          first.Object? && "message" in first.fields
          && first.fields["message"].Object? && "content" in first.fields["message"].fields
  }

  function FirstContent(response: Json): Json
    requires HasContent(response)
  {
    response.fields["choices"].elements[0].fields["message"].fields["content"]
  }

  lemma {:induction false} MapsOf(elements: seq<Json>)
    ensures ElementsAsMaps(elements) != None <==> forall k :: 0 <= k < |elements| ==> IsMap(elements[k])
    ensures ElementsAsMaps(elements) != None ==>
      |ElementsAsMaps(elements).value| == |elements|
      && forall k :: 0 <= k < |elements| ==>
           ElementsAsMaps(elements).value[k] == if elements[k].Object? then elements[k].fields else map[]
  {
    if elements != [] {
      MapsOf(elements[1..]);
    }
  }

  /** The completion is the content of the first choice's message; any other value stands for itself. */
  lemma {:induction false} CompletionOf(body: Json)
    ensures ExtractCompletion(body)
         == if HasContent(body) then body.fields["choices"].elements[0].fields["message"].fields["content"] else body
  {
    if body.Object? && "choices" in body.fields && body.fields["choices"].Array? {
      MapsOf(body.fields["choices"].elements);
    }
  }

  /** The `openai` export of any line: what is no JSON object stays, and of an object only three fields count. */
  lemma {:induction false} ExportOfLine(codec: Codec, line: Bytes)
    requires Lawful(codec)
    ensures codec.unmarshal(line) == None || !IsMap(codec.unmarshal(line).value) ==>
      TransformToOpenAI(codec, line) == line
    ensures codec.unmarshal(line) != None && codec.unmarshal(line).value.Object? ==>
      var raw, parsed := codec.unmarshal(line).value.fields, codec.unmarshal(TransformToOpenAI(codec, line));
      parsed != None && parsed.value.Object?
      && var f := parsed.value.fields;
         f.Keys <= {"messages", "completion", "model"}
         && ("messages" in f <==> "request_body" in raw) && ("completion" in f <==> "response_body" in raw)
         && ("model" in f <==> "public_model_name" in raw)
         && ("messages" in f ==> f["messages"] == ExtractMessages(raw["request_body"]))
         && ("completion" in f ==> f["completion"] == ExtractCompletion(raw["response_body"]))
         && ("model" in f ==> f["model"] == raw["public_model_name"])
  {
    if codec.unmarshal(line) != None && codec.unmarshal(line).value.Object? {
      var out := OpenAIFields(codec.unmarshal(line).value.fields);
      assert codec.unmarshal(codec.marshal(Object(out))) == Some(Object(out));
    }
  }

  /**
   The export of the line written for an entry, exactly: the messages of the request, the content of the response, each
   else the body itself, and the model; nothing when a body is no JSON.
   */
  lemma {:induction false} ExportOfEntry(codec: Codec, e: Entry, capturedAt: string)
    requires Lawful(codec)
    ensures BodyJson(codec, e.requestBody).Some? && BodyJson(codec, e.responseBody).Some? ==>
      var request, response := BodyJson(codec, e.requestBody).value, BodyJson(codec, e.responseBody).value;
      codec.unmarshal(TransformToOpenAI(codec, MarshalJsonl(codec, e, capturedAt))) == Some(Object(map[
        "messages" := if request.Object? && "messages" in request.fields then request.fields["messages"] else request,
        "completion" := if HasContent(response) then FirstContent(response) else response,
        "model" := String(e.publicModelName)]))
    ensures BodyJson(codec, e.requestBody) == None || BodyJson(codec, e.responseBody) == None ==>
      TransformToOpenAI(codec, MarshalJsonl(codec, e, capturedAt)) == []
  {
    match (BodyJson(codec, e.requestBody), BodyJson(codec, e.responseBody))
    case (Some(request), Some(response)) =>
      var raw := LineFields(e, capturedAt, request, response);
      LineHasBodies(e, capturedAt, request, response);
      var out := OpenAIFields(raw);
      PickedFields(raw);
      MessagesOf(request);
      CompletionOf(response);
      assert codec.unmarshal(codec.marshal(Object(raw))) == Some(Object(raw));
      assert codec.unmarshal(codec.marshal(Object(out))) == Some(Object(out));
    case _ =>
  }

  lemma {:induction false} LineHasBodies(e: Entry, capturedAt: string, request: Json, response: Json)
    ensures var raw := LineFields(e, capturedAt, request, response);
            "request_body" in raw && raw["request_body"] == request
            && "response_body" in raw && raw["response_body"] == response
            && "public_model_name" in raw && raw["public_model_name"] == String(e.publicModelName)
  {
  }

  lemma {:induction false} PickedFields(raw: map<string, Json>)
    requires "request_body" in raw && "response_body" in raw && "public_model_name" in raw
    ensures OpenAIFields(raw) == map[
      "messages" := ExtractMessages(raw["request_body"]),
      "completion" := ExtractCompletion(raw["response_body"]),
      "model" := raw["public_model_name"]]
  {
  }
}
