/** Reading stored records back for an export, and what an export finds in any reachable state of the pipeline. */
module CaptureReader {
  import opened Lines
  import opened Json
  import opened Calendar
  import opened CaptureEntry
  import opened CaptureStore
  import opened CaptureDisk
  import opened CapturePaging
  import opened CaptureExport
  import opened CapturePipeline
  import opened PipelineFlow
  import opened PipelineGuarantees
  import opened SseStream
  import opened SseScanner
  import opened StreamProxy

  /** What is exported for a record without a body. */
  function SkippedLine(codec: Codec, row: Row): Bytes {
    codec.marshal(Object(map[
      "request_id" := String(row.rec.requestId),
      "project_id" := Integer(row.rec.projectId),
      "model" := String(row.rec.publicModelName),
      "stream" := Bool(row.rec.stream),
      "status_code" := Integer(row.rec.statusCode),
      "body_skipped" := Bool(true),
      "created_at" := String(BoundText(row.createdAt))]))
  }

  /** What is exported for a record without a body, in either format, parses back to seven fields, and has no others. */
  lemma {:induction false} SkippedLineOf(codec: Codec, d: Disk, row: Row, openai: bool)
    requires Lawful(codec) && (row.rec.bodySkipped || row.rec.filePath == None)
    ensures ReadCaptureLine(codec, d, row, openai) != None
    ensures var parsed := codec.unmarshal(ReadCaptureLine(codec, d, row, openai).value);
            parsed != None && parsed.value.Object?
            && var f := parsed.value.fields;
               f.Keys == {"request_id", "project_id", "model", "stream", "status_code", "body_skipped", "created_at"}
               && f["request_id"] == String(row.rec.requestId) && f["project_id"] == Integer(row.rec.projectId)
               && f["model"] == String(row.rec.publicModelName) && f["stream"] == Bool(row.rec.stream)
               && f["status_code"] == Integer(row.rec.statusCode) && f["body_skipped"] == Bool(true)
               && f["created_at"] == String(BoundText(row.createdAt))
  {
    var j := Object(map[
      "request_id" := String(row.rec.requestId), "project_id" := Integer(row.rec.projectId),
      "model" := String(row.rec.publicModelName), "stream" := Bool(row.rec.stream),
      "status_code" := Integer(row.rec.statusCode), "body_skipped" := Bool(true),
      "created_at" := String(BoundText(row.createdAt))]);
    assert codec.unmarshal(codec.marshal(j)) == Some(j);
  }

  function ReadCaptureLine(codec: Codec, d: Disk, row: Row, openai: bool): Option<Bytes> {
    if row.rec.bodySkipped || row.rec.filePath == None then Some(SkippedLine(codec, row))
    else match ReadAt(d, row.rec.filePath.value, row.rec.fileOffset)
      case None => None
      case Some(line) => Some(if openai then TransformToOpenAI(codec, line) else line)
  }

  function ExportReader(codec: Codec, d: Disk, openai: bool): LineReader {
    (row: Row) => ReadCaptureLine(codec, d, row, openai)
  }

  /** Whatever is read is one line. */
  lemma {:induction false} ReaderReadsLines(codec: Codec, d: Disk, openai: bool)
    requires Lawful(codec)
    ensures ReadsLines(ExportReader(codec, d, openai))
  {
    forall row | ReadCaptureLine(codec, d, row, openai) != None
      ensures LfFree(ReadCaptureLine(codec, d, row, openai).value)
    {
      if row.rec.bodySkipped || row.rec.filePath == None {
        SkippedIsLine(codec, row);
      } else {
        TransformedIsLine(codec, ReadAt(d, row.rec.filePath.value, row.rec.fileOffset).value);
      }
    }
  }

  lemma {:induction false} SkippedIsLine(codec: Codec, row: Row)
    requires Lawful(codec)
    ensures LfFree(SkippedLine(codec, row))
  {
  }

  lemma {:induction false} TransformedIsLine(codec: Codec, line: Bytes)
    requires Lawful(codec) && LfFree(line)
    ensures LfFree(TransformToOpenAI(codec, line))
  {
    match codec.unmarshal(line)
    case None =>
    case Some(j) =>
      if AsMap(j) != None {
        assert LfFree(codec.marshal(Object(OpenAIFields(AsMap(j).value))));
      }
  }

  /** The line marshalled for the entry behind a row. */
  function SourceLine(c: Config, t: State, row: Row): Bytes
    requires 0 < row.id <= |t.log| && t.log[row.id - 1].src < |t.accepted|
  {
    var it := t.log[row.id - 1];
    MarshalJsonl(c.codec, t.accepted[it.src], c.stamp(it.writtenAt))
  }

  /**
   What an export reads for a stored record: the line of its own entry, unless its file has no name any more or the line
   exceeds the reader's buffer. In a trusted state the file has its name.
   */
  lemma {:induction false} ExportReads(c: Config, start: nat, run: seq<Label>, t: State, k: nat, openai: bool)
    requires Reached(c, start, run, t) && k < |t.table|
    ensures var row := t.table[k];
            0 < row.id <= |t.log| && t.log[row.id - 1].src < |t.accepted|
            && ReadCaptureLine(c.codec, t.disk, row, openai)
               == if row.rec.filePath == None then Some(SkippedLine(c.codec, row))
                  else if row.rec.filePath.value !in t.disk.names || |SourceLine(c, t, row)| >= MAX_LINE then None
                  else Some(if openai then TransformToOpenAI(c.codec, SourceLine(c, t, row)) else SourceLine(c, t, row))
    ensures Trusted(t) && t.table[k].rec.filePath != None ==> t.table[k].rec.filePath.value in t.disk.names
  {
    ReachedInv(c, start, run, t);
    var row := t.table[k];
    var it := t.log[row.id - 1];
    assert Items(t)[row.id - 1] == it;
    assert ItemOf(c, t.accepted[it.src], it);
    if row.rec.filePath != None {
      IndexAgreesWithFiles(c, start, run, t, k);
    }
  }

  /** The record's line does not fit the reader's buffer. */
  predicate TooLong(t: State, row: Row)
    requires 0 < row.id <= |t.log|
  {
    row.rec.filePath != None && |t.log[row.id - 1].line| >= MAX_LINE
  }

  /** The record's file has no name any more, or its line does not fit the reader's buffer. */
  predicate Unreadable(t: State, row: Row)
    requires 0 < row.id <= |t.log|
  {
    (row.rec.filePath != None && row.rec.filePath.value !in t.disk.names) || TooLong(t, row)
  }

  predicate Logged(t: State, rows: seq<Row>) {
    forall i :: 0 <= i < |rows| ==> 0 < rows[i].id <= |t.log|
  }

  predicate ReadSoon(t: State, rows: seq<Row>, pageSize: nat, i: nat)
    requires Logged(t, rows)
  {
    exists j :: i < j < |rows| && j < i + pageSize && !Unreadable(t, rows[j])
  }

  /**
   No record without its file or with an over-long line is followed by nothing but such records, over a page's length
   or up to the end.
   */
  predicate NoUnreadableGap(t: State, rows: seq<Row>, pageSize: nat)
    requires Logged(t, rows)
  {
    forall i: nat {:trigger ReadSoon(t, rows, pageSize, i)} ::
      i < |rows| && Unreadable(t, rows[i]) ==> ReadSoon(t, rows, pageSize, i)
  }

  /**
   A stored record cannot be read exactly when its file has no name any more or its line is too long. In a trusted state
   it is for the line alone.
   */
  lemma {:induction false} UnreadableIff(c: Config, start: nat, run: seq<Label>, t: State, k: nat, openai: bool)
    requires Reached(c, start, run, t) && k < |t.table|
    ensures 0 < t.table[k].id <= |t.log|
    ensures ReadCaptureLine(c.codec, t.disk, t.table[k], openai) == None <==> Unreadable(t, t.table[k])
    ensures Trusted(t) ==> (Unreadable(t, t.table[k]) <==> TooLong(t, t.table[k]))
  {
    ExportReads(c, start, run, t, k, openai);
    if t.table[k].rec.filePath != None {
      ReachedRowLine(c, start, run, t, k);
    }
  }

  lemma {:induction false} ReachedRowLine(c: Config, start: nat, run: seq<Label>, t: State, k: nat)
    requires Reached(c, start, run, t) && k < |t.table| && t.table[k].rec.filePath != None
    ensures 0 < t.table[k].id <= |t.log| && t.log[t.table[k].id - 1].src < |t.accepted|
    ensures SourceLine(c, t, t.table[k]) == t.log[t.table[k].id - 1].line
  {
    ReachedInv(c, start, run, t);
    RowLine(c, t, k);
  }

  /** What is selected from the table of a reached state: stored records, and which of them cannot be read. */
  lemma {:induction false} SelectedReadable(c: Config, start: nat, run: seq<Label>, t: State, rows: seq<Row>,
                                            openai: bool)
    requires Reached(c, start, run, t) && forall r :: r in rows ==> r in t.table
    ensures Logged(t, rows)
    ensures forall i :: 0 <= i < |rows| ==>
              (ExportReader(c.codec, t.disk, openai)(rows[i]) == None <==> Unreadable(t, rows[i]))
  {
    forall i | 0 <= i < |rows|
      ensures 0 < rows[i].id <= |t.log|
      ensures ExportReader(c.codec, t.disk, openai)(rows[i]) == None <==> Unreadable(t, rows[i])
    {
      assert rows[i] in rows;
      var k :| 0 <= k < |t.table| && t.table[k] == rows[i];
      UnreadableIff(c, start, run, t, k, openai);
    }
  }

  lemma {:induction false} GapsAgree(t: State, rows: seq<Row>, pageSize: nat, read: LineReader)
    requires Logged(t, rows) && forall i :: 0 <= i < |rows| ==> (read(rows[i]) == None <==> Unreadable(t, rows[i]))
    ensures NoGap(rows, pageSize, read) <==> NoUnreadableGap(t, rows, pageSize)
  {
    forall i: nat | i < |rows|
      ensures ReadableSoon(rows, pageSize, read, i) <==> ReadSoon(t, rows, pageSize, i)
    {
      if ReadableSoon(rows, pageSize, read, i) {
        var j :| i < j < |rows| && j < i + pageSize && read(rows[j]) != None;
        assert !Unreadable(t, rows[j]);
      }
      if ReadSoon(t, rows, pageSize, i) {
        var j :| i < j < |rows| && j < i + pageSize && !Unreadable(t, rows[j]);
        assert read(rows[j]) != None;
      }
    }
  }

  /**
   In every state of every run a download over it comes to its end exactly when no selected record without its file or
   with an over-long line is followed by nothing but such records, over a page's length or up to the end.
   */
  lemma {:induction false} DownloadEndsIffNoUnreadableGap(c: Config, start: nat, run: seq<Label>, t: State,
                                                          openai: bool, project: int, cursor: int, pageSize: nat,
                                                          f: Filter)
    requires Reached(c, start, run, t) && pageSize > 0
    ensures Ascending(t.table) && PositiveIds(t.table)
    ensures var rows := Beyond(t.table, project, cursor, f);
            Logged(t, rows)
            && ((exists rounds :: Left(rows, pageSize, ExportReader(c.codec, t.disk, openai), rounds) == [])
                <==> NoUnreadableGap(t, rows, pageSize))
  {
    ReachedInv(c, start, run, t);
    BeyondMembers(t.table, project, cursor, f);
    var rows, read := Beyond(t.table, project, cursor, f), ExportReader(c.codec, t.disk, openai);
    SelectedReadable(c, start, run, t, rows, openai);
    GapsAgree(t, rows, pageSize, read);
    DownloadEndsIffNoGap(rows, pageSize, read);
  }

  lemma {:induction false} RowLine(c: Config, t: State, k: nat)
    requires FlowOk(c, t) && k < |t.table| && t.table[k].rec.filePath != None
    ensures 0 < t.table[k].id <= |t.log| && t.log[t.table[k].id - 1].src < |t.accepted|
    ensures SourceLine(c, t, t.table[k]) == t.log[t.table[k].id - 1].line
  {
    var it := t.log[t.table[k].id - 1];
    assert Items(t)[t.table[k].id - 1] == it;
    assert ItemOf(c, t.accepted[it.src], it);
  }

  /**
   End to end: for a captured stream whose record has been stored, with its file there, as it is in trusted states, and
   with a line that the reader can hold, the `openai` export gives the text of all deltas that came before `[DONE]`,
   however the upstream's bytes were cut into reads, whatever the interleaving of the capture pipeline was since then.
   */
  lemma {:induction false} CapturedStreamIsExported(c: Config, start: nat, run: seq<Label>, t: State, k: nat,
                                                    p: ChunkParser, rq: Request, script: seq<Read>,
                                                    counts: Option<TokenCounts>, latencyMs: int, ttfcMs: int,
                                                    freshId: string)
    requires Reached(c, start, run, t)
    requires WellBehaved(script) && c.codec.unmarshal(rq.clientBody).Some?
    requires k < |t.table| && t.table[k].rec.filePath != None
    requires 0 < t.table[k].id <= |t.log| && t.log[t.table[k].id - 1].src < |t.accepted| && !Unreadable(t, t.table[k])
    requires t.accepted[t.log[t.table[k].id - 1].src]
          == CapturedEntry(c.codec, p, rq, script, counts, latencyMs, ttfcMs, freshId)
    ensures var exported := ReadCaptureLine(c.codec, t.disk, t.table[k], true);
            var request := c.codec.unmarshal(rq.clientBody).value;
            exported.Some? && c.codec.unmarshal(exported.value) == Some(Object(map[
              "messages" := if request.Object? && "messages" in request.fields then request.fields["messages"]
                            else request,
              "completion" := String(Deltas(p, StreamOutcome(Data(script)).lines)),
              "model" := String(rq.publicModelName)]))
  {
    ExportReads(c, start, run, t, k, true);
    ReachedRowLine(c, start, run, t, k);
    var writtenAt := t.log[t.table[k].id - 1].writtenAt;
    StreamToExport(c.codec, p, rq, script, counts, latencyMs, ttfcMs, freshId, c.stamp(writtenAt));
  }

  /** The entry that a relayed stream is captured as. */
  function CapturedEntry(codec: Codec, p: ChunkParser, rq: Request, script: seq<Read>, counts: Option<TokenCounts>,
                         latencyMs: int, ttfcMs: int, freshId: string): Entry {
    var o := ReadOutcome(script);
    var sr := ResultOf(o, Deltas(p, o.lines), counts, rq.statusCode, latencyMs, ttfcMs);
    StreamEntry(codec, rq, o, sr, AbsorbLines(p, NO_METADATA, o.lines), freshId)
  }
}
