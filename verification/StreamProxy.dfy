/** Relaying an upstream stream, and the response put together from it for the capture. */
module StreamProxy {
  import opened Sequences
  import opened Lines
  import opened SseStream
  import opened SseScanner
  import opened Json
  import opened CaptureEntry

  // The relayed bytes

  function RenderLines(lines: seq<Bytes>): Bytes {
    if lines == [] then [] else lines[0] + ([LF] + ([LF] + RenderLines(lines[1..])))
  }

  /** What a client is sent for an outcome. */
  function Render(o: Outcome): Bytes {
    RenderLines(o.lines) + if o.completed then DONE_LINE + ([LF] + [LF]) else []
  }

  lemma {:induction false} RenderAppend(lines: seq<Bytes>, line: Bytes)
    ensures RenderLines(lines + [line]) == RenderLines(lines) + (line + ([LF] + [LF]))
  {
    if lines == [] {
      assert RenderLines([]) == [] && lines + [line] == [line] && [line][1..] == [];
      assert [LF] + [] == [LF];
    } else {
      RenderAppend(lines[1..], line);
      assert (lines + [line])[1..] == lines[1..] + [line];
      var rest, last := RenderLines(lines[1..]), line + ([LF] + [LF]);
      Associate([LF], rest, last);
      Associate([LF], [LF] + rest, last);
      Associate(lines[0], [LF] + ([LF] + rest), last);
    }
  }

  /** What a client is sent, by its bytes: every line and two line feeds, and at the end, if there was one, `[DONE]`. */
  lemma {:induction false} RenderedText(lines: seq<Bytes>, line: Bytes, o: Outcome)
    ensures Render(Outcome([], false)) == ""
    ensures Render(Outcome(lines + [line], false)) == Render(Outcome(lines, false)) + line + "\n\n"
    ensures o.completed ==> Render(o) == Render(Outcome(o.lines, false)) + "data: [DONE]\n\n"
  {
    RenderAppend(lines, line);
    assert [LF] + [LF] == "\n\n";
    assert RenderLines(o.lines) + [] == RenderLines(o.lines);
    assert DONE_LINE + ([LF] + [LF]) == "data: [DONE]\n\n";
  }

  /** An outcome of some stream: what `Deliver` can give for lines split at line feeds. */
  predicate Deliverable(o: Outcome) {
    forall k :: 0 <= k < |o.lines| ==> IsData(o.lines[k]) && !IsDone(o.lines[k]) && LfFree(o.lines[k])
  }

  lemma {:induction false} StreamOutcomeDeliverable(stream: Bytes)
    ensures Deliverable(StreamOutcome(stream))
  {
    SplitPiecesLfFree(stream);
    DeliveredLines(Split(stream));
    var o := StreamOutcome(stream);
    forall k | 0 <= k < |o.lines|
      ensures IsData(o.lines[k]) && !IsDone(o.lines[k]) && LfFree(o.lines[k])
    {
      assert o.lines[k] in o.lines;
    }
  }

  lemma {:induction false} RenderThen(line: Bytes, tail: Bytes, rest: Bytes)
    ensures line + ([LF] + ([LF] + (tail + rest))) == (line + ([LF] + ([LF] + tail))) + rest
  {
    Associate([LF], tail, rest);
    Associate([LF], [LF] + tail, rest);
    Associate(line, [LF] + ([LF] + tail), rest);
  }

  lemma {:induction false} OutcomeOfRendered(lines: seq<Bytes>, rest: Bytes)
    requires Deliverable(Outcome(lines, false))
    ensures StreamOutcome(RenderLines(lines) + rest) == Then(Outcome(lines, false), StreamOutcome(rest))
  {
    if lines == [] {
      assert RenderLines(lines) + rest == rest;
    } else {
      var tail := RenderLines(lines[1..]);
      OutcomeOfRendered(lines[1..], rest);
      OutcomeOfPrinted(lines[0], tail + rest);
      DeliverOne(lines[0]);
      RenderThen(lines[0], tail, rest);
      assert [lines[0]] + (lines[1..] + StreamOutcome(rest).lines) == lines + StreamOutcome(rest).lines;
    }
  }

  /** Scanning what the relay printed gives back what it was printed from. */
  lemma {:induction false} RenderRoundTrip(o: Outcome)
    requires Deliverable(o)
    ensures StreamOutcome(Render(o)) == o
  {
    SplitLfFree([]);
    DeliverOne([]);
    if o.completed {
      var end := DONE_LINE + ([LF] + [LF]);
      OutcomeOfRendered(o.lines, end);
      assert LfFree(DONE_LINE);
      assert [LF] + ([LF] + []) == [LF] + [LF];
      OutcomeOfPrinted(DONE_LINE, []);
      DeliverOne(DONE_LINE);
    } else {
      OutcomeOfRendered(o.lines, []);
    }
  }

  function Relayed(stream: Bytes): Bytes {
    Render(StreamOutcome(stream))
  }

  function RelayedTimes(hops: nat, stream: Bytes): Bytes {
    if hops == 0 then stream else Relayed(RelayedTimes(hops - 1, stream))
  }

  /** Any number of relays in a row lose nothing; from the first on they do not change a byte. */
  lemma {:induction false} RelayHops(hops: nat, stream: Bytes)
    ensures StreamOutcome(RelayedTimes(hops, stream)) == StreamOutcome(stream)
    ensures hops > 0 ==> RelayedTimes(hops, stream) == Relayed(stream)
  {
    if hops > 0 {
      RelayHops(hops - 1, stream);
      StreamOutcomeDeliverable(stream);
      RenderRoundTrip(StreamOutcome(stream));
    }
  }

  // The reconstructed response

  datatype StreamResult = StreamResult(
    latencyMs: int,
    timeToFirstChunkMs: int,
    completed: bool,
    errorCode: string,
    errorMessage: string,
    upstreamStatusCode: int,
    completionTokens: int,
    completionText: string,
    promptTokens: int,
    totalTokens: int)

  datatype TokenCounts = TokenCounts(prompt: Option<int>, completion: Option<int>, total: Option<int>)

  function Usage(sr: StreamResult): Json {
    Object(map["prompt_tokens" := Integer(sr.promptTokens),
               "completion_tokens" := Integer(sr.completionTokens),
               "total_tokens" := Integer(sr.totalTokens)])
  }

  /** The chat completion for a stream; `freshId` is the random identifier used when no chunk gave one. */
  function Reconstruct(text: string, sr: StreamResult, m: Metadata, request: Option<Json>, freshId: string): Json {
    var id := if m.id == "" then freshId else m.id;
    var model := if m.model == "" then StringField(request, "model") else m.model;
    var finish := if m.finishReason == "" then "stop" else m.finishReason;
    var message := Object(map["role" := String("assistant"), "content" := String(text)]);
    var choice := Object(map["index" := Integer(0), "message" := message, "finish_reason" := String(finish)]);
    var fields := map["id" := String(id), "object" := String("chat.completion"), "model" := String(model),
                      "choices" := Array([choice])];
    Object(if sr.totalTokens > 0 then fields["usage" := Usage(sr)] else fields)
  }

  /** The exporter finds the streamed text again in the reconstructed response. */
  lemma {:induction false} CompletionOfReconstructed(text: string, sr: StreamResult, m: Metadata, request: Option<Json>,
                                                     freshId: string)
    ensures ExtractCompletion(Reconstruct(text, sr, m, request, freshId)) == String(text)
  {
    var message := Object(map["role" := String("assistant"), "content" := String(text)]);
    var finish := if m.finishReason == "" then "stop" else m.finishReason;
    var choice := Object(map["index" := Integer(0), "message" := message, "finish_reason" := String(finish)]);
    assert Reconstruct(text, sr, m, request, freshId).fields["choices"] == Array([choice]);
    assert ElementsAsMaps([choice][1..]) == Some([]);
    assert ElementsAsMaps([choice]) == Some([choice.fields] + []);
    assert AsMap(message) == Some(message.fields) && message.fields["content"] == String(text);
  }

  /** The other fields of the reconstructed response; usage is there for a positive number of tokens only. */
  lemma {:induction false} ReconstructedFields(text: string, sr: StreamResult, m: Metadata, request: Option<Json>,
                                               freshId: string)
    ensures var r := Reconstruct(text, sr, m, request, freshId);
            r.Object?
            && r.fields.Keys == {"id", "object", "model", "choices"} + (if sr.totalTokens > 0 then {"usage"} else {})
            && r.fields["object"] == String("chat.completion")
            && r.fields["choices"].Array? && |r.fields["choices"].elements| == 1
    ensures var r := Reconstruct(text, sr, m, request, freshId);
            sr.totalTokens > 0 ==>
              r.fields["usage"] == Object(map["prompt_tokens" := Integer(sr.promptTokens),
                                              "completion_tokens" := Integer(sr.completionTokens),
                                              "total_tokens" := Integer(sr.totalTokens)])
  {
  }

  /** Identifier, model and finish reason, with what stands in for each when it is empty. */
  lemma {:induction false} ReconstructedNames(text: string, sr: StreamResult, m: Metadata, request: Option<Json>,
                                              freshId: string, r: map<string, Json>)
    requires r == Reconstruct(text, sr, m, request, freshId).fields
    ensures "id" in r && r["id"] == String(if m.id == "" then freshId else m.id)
    ensures "model" in r
         && r["model"] == String(if m.model != "" then m.model
                                 else if request != None && request.value.Object? && "model" in request.value.fields
                                         && request.value.fields["model"].String?
                                 then request.value.fields["model"].s else "")
    ensures "choices" in r && r["choices"].Array? && r["choices"].elements != [] && r["choices"].elements[0].Object?
         && "finish_reason" in r["choices"].elements[0].fields
         && r["choices"].elements[0].fields["finish_reason"]
            == String(if m.finishReason == "" then "stop" else m.finishReason)
  {
  }

  /** The only choice, the first, is a message of the assistant with the text. */
  lemma {:induction false} ReconstructedChoice(text: string, sr: StreamResult, m: Metadata, request: Option<Json>,
                                               freshId: string)
    ensures var choice := Reconstruct(text, sr, m, request, freshId).fields["choices"].elements[0];
            choice.Object? && choice.fields.Keys == {"index", "message", "finish_reason"}
            && choice.fields["index"] == Integer(0)
            && choice.fields["message"] == Object(map["role" := String("assistant"), "content" := String(text)])
  {
  }

  // The relay

  datatype Request = Request(
    requestId: string,
    projectId: int,
    routeName: string,
    publicModelName: string,
    upstreamModelName: string,
    providerName: string,
    statusCode: int,
    clientBody: Bytes,
    upstreamBody: Bytes)

  function Counted(n: Option<int>): int {
    if n == None then 0 else n.value
  }

  function Positive(n: int): Option<int> {
    if n > 0 then Some(n) else None
  }

  function ResultOf(o: Outcome, text: string, counts: Option<TokenCounts>, status: int, latencyMs: int, ttfcMs: int)
    : StreamResult
  {
    var c := if counts == None then TokenCounts(None, None, None) else counts.value;
    StreamResult(latencyMs, ttfcMs, o.completed,
                 if o.completed then "" else "upstream_eof",
                 if o.completed then "" else "stream ended before [DONE]",
                 status, Counted(c.completion), text, Counted(c.prompt), Counted(c.total))
  }

  /** The entry captured for a relayed stream. */
  function StreamEntry(codec: Codec, rq: Request, o: Outcome, sr: StreamResult, m: Metadata, freshId: string): Entry {
    var response := Reconstruct(sr.completionText, sr, m, codec.unmarshal(rq.clientBody), freshId);
    Entry(rq.requestId, rq.projectId, rq.routeName, rq.publicModelName, rq.upstreamModelName, rq.providerName,
          true, o.completed, rq.statusCode, sr.latencyMs, Some(sr.timeToFirstChunkMs),
          Positive(sr.promptTokens), Positive(sr.completionTokens),
          Some(rq.clientBody), Some(codec.marshal(response)), false)
  }

  /** A count that was made, and 0 for one that was not. */
  lemma {:induction false} ResultCounts(o: Outcome, text: string, counts: Option<TokenCounts>, status: int,
                                        latencyMs: int, ttfcMs: int)
    ensures var sr := ResultOf(o, text, counts, status, latencyMs, ttfcMs);
            sr.promptTokens == (if counts == None || counts.value.prompt == None then 0 else counts.value.prompt.value)
            && sr.completionTokens
               == (if counts == None || counts.value.completion == None then 0 else counts.value.completion.value)
            && sr.totalTokens == (if counts == None || counts.value.total == None then 0 else counts.value.total.value)
  {
  }

  /** A stream that ended without `[DONE]` has an error; the rest of the result is what was measured. */
  lemma {:induction false} ResultFields(o: Outcome, text: string, counts: Option<TokenCounts>, status: int,
                                        latencyMs: int, ttfcMs: int)
    ensures var sr := ResultOf(o, text, counts, status, latencyMs, ttfcMs);
            (sr.completed <==> o.completed)
            && (o.completed ==> sr.errorCode == "" && sr.errorMessage == "")
            && (!o.completed ==> sr.errorCode == "upstream_eof" && sr.errorMessage == "stream ended before [DONE]")
            && sr.upstreamStatusCode == status && sr.completionText == text
            && sr.latencyMs == latencyMs && sr.timeToFirstChunkMs == ttfcMs
  {
  }

  /**
   The entry of a stream has the names of its request, the client's own body, and those of the token numbers that are
   positive.
   */
  lemma {:induction false} StreamEntryFields(codec: Codec, rq: Request, o: Outcome, sr: StreamResult, m: Metadata,
                                             freshId: string)
    ensures var e := StreamEntry(codec, rq, o, sr, m, freshId);
            e.requestId == rq.requestId && e.projectId == rq.projectId && e.routeName == rq.routeName
            && e.publicModelName == rq.publicModelName && e.upstreamModelName == rq.upstreamModelName
            && e.providerName == rq.providerName && e.statusCode == rq.statusCode
            && e.stream && e.streamCompleted == o.completed && !e.bodySkipped
            && e.latencyMs == sr.latencyMs && e.ttfcMs == Some(sr.timeToFirstChunkMs)
            && e.promptTokens == (if sr.promptTokens > 0 then Some(sr.promptTokens) else None)
            && e.completionTokens == (if sr.completionTokens > 0 then Some(sr.completionTokens) else None)
            && e.requestBody == Some(rq.clientBody)
  {
  }

  /**
   From the counts to the captured response: it parses back to the reconstruction, whose usage holds the three
   numbers counted when their total is positive, and which has no usage otherwise.
   */
  lemma {:induction false} CapturedUsage(codec: Codec, rq: Request, o: Outcome, text: string,
                                         counts: Option<TokenCounts>, latencyMs: int, ttfcMs: int, m: Metadata,
                                         freshId: string)
    requires Lawful(codec)
    ensures var sr := ResultOf(o, text, counts, rq.statusCode, latencyMs, ttfcMs);
            var body := StreamEntry(codec, rq, o, sr, m, freshId).responseBody;
            var total := if counts == None || counts.value.total == None then 0 else counts.value.total.value;
            body != None
            && codec.unmarshal(body.value) == Some(Reconstruct(text, sr, m, codec.unmarshal(rq.clientBody), freshId))
            && var f := Reconstruct(text, sr, m, codec.unmarshal(rq.clientBody), freshId).fields;
               ("usage" in f <==> total > 0)
               && (total > 0 ==> f["usage"] == Object(map[
                     "prompt_tokens" := Integer(if counts.value.prompt == None then 0 else counts.value.prompt.value),
                     "completion_tokens"
                       := Integer(if counts.value.completion == None then 0 else counts.value.completion.value),
                     "total_tokens" := Integer(total)]))
  {
    var sr := ResultOf(o, text, counts, rq.statusCode, latencyMs, ttfcMs);
    var response := Reconstruct(text, sr, m, codec.unmarshal(rq.clientBody), freshId);
    ResultCounts(o, text, counts, rq.statusCode, latencyMs, ttfcMs);
    ReconstructedFields(text, sr, m, codec.unmarshal(rq.clientBody), freshId);
    assert codec.unmarshal(codec.marshal(response)) == Some(response);
  }

  /** The write loop: passes each event line on and collects the text of the deltas. */
  method Relay(scanner: Scanner) returns (written: Bytes, accumulated: string)
    requires scanner.Valid()
    requires !scanner.completed && scanner.Meta() == NO_METADATA
    modifies scanner, scanner.reader, scanner.buf
    ensures scanner.Valid()
    ensures written == Render(old(scanner.Upcoming()))
    ensures accumulated == Deltas(scanner.parser, old(scanner.Upcoming()).lines)
    ensures scanner.completed == old(scanner.Upcoming()).completed
    ensures scanner.Meta() == AbsorbLines(scanner.parser, NO_METADATA, old(scanner.Upcoming()).lines)
  {
    ghost var p, goal := scanner.parser, scanner.Upcoming();
    ghost var sent: seq<Bytes> := [];
    written, accumulated := [], "";
    assert sent + goal.lines == goal.lines;
    while true
      invariant scanner.Valid() && !scanner.completed
      invariant goal.lines == sent + scanner.Upcoming().lines && goal.completed == scanner.Upcoming().completed
      invariant scanner.Meta() == AbsorbLines(p, NO_METADATA, sent)
      invariant written == RenderLines(sent) && accumulated == Deltas(p, sent)
      decreases |scanner.Upcoming().lines|
    {
      var elapsedMs: int := *;
      var more := scanner.Scan(elapsedMs);
      if !more {
        break;
      }
      var line := scanner.RawLine();
      Extend(p, sent, line);
      assert sent + ([line] + scanner.Upcoming().lines) == (sent + [line]) + scanner.Upcoming().lines;
      written := written + (line + ([LF] + [LF]));
      if scanner.lastDelta != "" {
        accumulated := accumulated + scanner.lastDelta;
      }
      sent := sent + [line];
    }
    assert goal.lines == sent;
    if scanner.completed {
      written := written + (DONE_LINE + ([LF] + [LF]));
    }
  }

  lemma {:induction false} Extend(p: ChunkParser, sent: seq<Bytes>, line: Bytes)
    requires IsData(line)
    ensures RenderLines(sent + [line]) == RenderLines(sent) + (line + ([LF] + [LF]))
    ensures Deltas(p, sent + [line]) == Deltas(p, sent) + p.delta(Payload(line))
    ensures AbsorbLines(p, NO_METADATA, sent + [line])
         == Absorb(AbsorbLines(p, NO_METADATA, sent), p.meta(Payload(line)))
  {
    RenderAppend(sent, line);
    DeltasAppend(p, sent, line);
    AbsorbAppend(p, NO_METADATA, sent, line);
  }

  lemma {:induction false} AbsorbAppend(p: ChunkParser, m: Metadata, lines: seq<Bytes>, line: Bytes)
    requires IsData(line)
    ensures AbsorbLines(p, m, lines + [line]) == Absorb(AbsorbLines(p, m, lines), p.meta(Payload(line)))
    decreases |lines|
  {
    if lines == [] {
      assert lines + [line] == [line];
    } else {
      AbsorbAppend(p, if IsData(lines[0]) then Absorb(m, p.meta(Payload(lines[0]))) else m, lines[1..], line);
      assert (lines + [line])[1..] == lines[1..] + [line];
    }
  }

  lemma {:induction false} DeltasAppend(p: ChunkParser, lines: seq<Bytes>, line: Bytes)
    ensures Deltas(p, lines + [line]) == Deltas(p, lines) + if IsData(line) then p.delta(Payload(line)) else ""
  {
    if lines == [] {
      assert lines + [line] == [line] && [line][1..] == [] && Deltas(p, []) == "";
    } else {
      DeltasAppend(p, lines[1..], line);
      assert (lines + [line])[1..] == lines[1..] + [line];
    }
  }

  /** The streaming half of a proxied request: relay, result, and the entry captured when a project owns the route. */
  method ProxyStream(codec: Codec, count: (string, Bytes) -> Option<TokenCounts>, rq: Request, scanner: Scanner,
                     latencyMs: int, freshId: string)
    returns (written: Bytes, sr: StreamResult, entry: Option<Entry>)
    requires scanner.Valid()
    requires !scanner.completed && scanner.Meta() == NO_METADATA
    modifies scanner, scanner.reader, scanner.buf
    ensures written == Render(old(scanner.Upcoming()))
    ensures sr == ResultOf(old(scanner.Upcoming()), Deltas(scanner.parser, old(scanner.Upcoming()).lines),
                           count(Deltas(scanner.parser, old(scanner.Upcoming()).lines), rq.upstreamBody),
                           rq.statusCode, latencyMs, scanner.timeToFirstChunkMs)
    ensures entry == if rq.projectId <= 0 then None
      else Some(StreamEntry(codec, rq, old(scanner.Upcoming()), sr,
                            AbsorbLines(scanner.parser, NO_METADATA, old(scanner.Upcoming()).lines), freshId))
  {
    var accumulated;
    written, accumulated := Relay(scanner);
    sr := StreamResult(latencyMs, scanner.timeToFirstChunkMs, scanner.completed, "", "",
                       rq.statusCode, 0, accumulated, 0, 0);
    if !scanner.completed {
      sr := sr.(errorCode := "upstream_eof", errorMessage := "stream ended before [DONE]");
    }
    var counts := count(sr.completionText, rq.upstreamBody);
    if counts != None {
      if counts.value.prompt != None {
        sr := sr.(promptTokens := counts.value.prompt.value);
      }
      if counts.value.completion != None {
        sr := sr.(completionTokens := counts.value.completion.value);
      }
      if counts.value.total != None {
        sr := sr.(totalTokens := counts.value.total.value);
      }
    }
    var request := codec.unmarshal(rq.clientBody);
    var reconstructed := Reconstruct(accumulated, sr, scanner.Meta(), request, freshId);
    entry := None;
    if rq.projectId > 0 {
      var e := Entry(rq.requestId, rq.projectId, rq.routeName, rq.publicModelName, rq.upstreamModelName,
                     rq.providerName, true, scanner.completed, rq.statusCode, sr.latencyMs,
                     Some(sr.timeToFirstChunkMs), None, None,
                     Some(rq.clientBody), Some(codec.marshal(reconstructed)), false);
      if sr.promptTokens > 0 {
        e := e.(promptTokens := Some(sr.promptTokens));
      }
      if sr.completionTokens > 0 {
        e := e.(completionTokens := Some(sr.completionTokens));
      }
      entry := Some(e);
    }
  }

  /**
   From the upstream's reads to the exported training sample: however the stream was cut into reads,
   the exported completion is the text of the deltas before `[DONE]`, next to the client's own messages.
   */
  lemma {:induction false} StreamToExport(codec: Codec, p: ChunkParser, rq: Request, script: seq<Read>,
                                          counts: Option<TokenCounts>, latencyMs: int, ttfcMs: int, freshId: string,
                                          capturedAt: string)
    requires Lawful(codec) && WellBehaved(script)
    requires codec.unmarshal(rq.clientBody).Some?
    ensures var o := ReadOutcome(script);
            var sr := ResultOf(o, Deltas(p, o.lines), counts, rq.statusCode, latencyMs, ttfcMs);
            var e := StreamEntry(codec, rq, o, sr, AbsorbLines(p, NO_METADATA, o.lines), freshId);
            var request := codec.unmarshal(rq.clientBody).value;
            codec.unmarshal(TransformToOpenAI(codec, MarshalJsonl(codec, e, capturedAt))) == Some(Object(map[
              "messages" := if request.Object? && "messages" in request.fields then request.fields["messages"]
                            else request,
              "completion" := String(Deltas(p, StreamOutcome(Data(script)).lines)),
              "model" := String(rq.publicModelName)]))
  {
    ChunkingIndependence(script);
    var o := ReadOutcome(script);
    var sr := ResultOf(o, Deltas(p, o.lines), counts, rq.statusCode, latencyMs, ttfcMs);
    var m := AbsorbLines(p, NO_METADATA, o.lines);
    var request := codec.unmarshal(rq.clientBody);
    var response := Reconstruct(sr.completionText, sr, m, request, freshId);
    assert codec.unmarshal(codec.marshal(response)) == Some(response);
    ExportOfEntry(codec, StreamEntry(codec, rq, o, sr, m, freshId), capturedAt);
    CompletionOfReconstructed(sr.completionText, sr, m, request, freshId);
    CompletionOf(response);
  }

  /**
   The identifier and the model of the reconstructed response come from one chunk, the first that carries either
   (`first`, the number of lines when there is none); an empty one of the two falls back by itself. The finish reason
   is the last that was given.
   */
  lemma {:induction false} ReconstructedHeader(p: ChunkParser, lines: seq<Bytes>, first: nat, last: nat, text: string,
                                               sr: StreamResult, request: Option<Json>, freshId: string)
    requires AllData(lines) && first <= |lines| && last <= |lines|
    requires first < |lines| ==> MetaOf(p, lines[first]).id != "" || MetaOf(p, lines[first]).model != ""
    requires forall j :: 0 <= j < first ==> MetaOf(p, lines[j]).id == "" && MetaOf(p, lines[j]).model == ""
    requires last < |lines| ==> MetaOf(p, lines[last]).finishReason != ""
    requires forall j :: (last == |lines| || last < j) && 0 <= j < |lines| ==> MetaOf(p, lines[j]).finishReason == ""
    ensures var r := Reconstruct(text, sr, AbsorbLines(p, NO_METADATA, lines), request, freshId).fields;
            var c := if first < |lines| then MetaOf(p, lines[first]) else ChunkMeta("", "", "");
            "id" in r && r["id"] == String(if c.id == "" then freshId else c.id)
            && "model" in r && r["model"] == String(if c.model != "" then c.model
                                    else if request != None && request.value.Object? && "model" in request.value.fields
                                            && request.value.fields["model"].String?
                                    then request.value.fields["model"].s else "")
            && "choices" in r && r["choices"].Array? && r["choices"].elements != [] && r["choices"].elements[0].Object?
            && "finish_reason" in r["choices"].elements[0].fields
            && r["choices"].elements[0].fields["finish_reason"]
               == String(if last < |lines| then MetaOf(p, lines[last]).finishReason else "stop")
  {
    if first < |lines| {
      NamedByFirst(p, NO_METADATA, lines, first);
    } else {
      NeverNamed(p, NO_METADATA, lines);
    }
    FinishIsLast(p, NO_METADATA, lines, last);
    var m := AbsorbLines(p, NO_METADATA, lines);
    ReconstructedNames(text, sr, m, request, freshId, Reconstruct(text, sr, m, request, freshId).fields);
  }
}
