/** What the steps of the pipeline do to entries and records: none is lost uncounted, doubled or overtaken. */
module PipelineFlow {
  import opened Lines
  import opened Json
  import opened Calendar
  import opened CaptureEntry
  import opened CaptureStore
  import opened CaptureDisk
  import opened FilePool
  import opened CaptureWriter
  import opened CapturePipeline

  /** Every item that is inserted or waits to be, in order. */
  function Items(s: State): seq<Item> {
    s.log + s.batch
  }

  function HandSize(s: State): nat {
    if s.phase.InHand? then 1 else 0
  }

  /** The conservation of entries, and the bounds of the queue and of the batch. */
  predicate Conserved(c: Config, s: State) {
    && s.submitted == |s.accepted| + s.dropped
    && |s.accepted| == s.captureTotal + s.uncounted
    && |s.accepted| == |s.queue| + HandSize(s) + |s.batch| + |s.log| + s.writeErrors + s.storeErrors
    && |s.queue| <= c.channelSize
    && |s.batch| <= c.batchSize
  }

  /** The queue holds the accepted entries not yet received, and the entry in hand is the last one received. */
  predicate Queued(s: State) {
    && s.received <= |s.accepted| && s.queue == s.accepted[s.received..]
    && (s.phase.InHand? ==> s.phase.src + 1 == s.received && s.phase.entry == s.accepted[s.phase.src])
  }

  predicate MidFlush(phase: Phase) {
    phase.Flushing? || phase.Inserting?
  }

  /** The consumer will come back for another entry. */
  predicate GoesOn(phase: Phase) {
    || phase.Idle? || phase.InHand?
    || (MidFlush(phase) && !phase.final && (phase.Inserting? ==> phase.attempt < MAX_RETRIES))
  }

  predicate PhaseOk(c: Config, s: State) {
    match s.phase
    case Idle => |s.batch| < c.batchSize
    case InHand(_, _) => |s.batch| < c.batchSize
    case Flushing(final) => s.batch != [] && (final ==> s.closing && s.queue == [])
    case Inserting(attempt, final, since) =>
      s.batch != [] && attempt < MAX_RETRIES && (final ==> s.closing && s.queue == []) && since <= s.now
    case Stopped => s.closing && s.queue == [] && s.batch == []
    case Closed => s.closing && s.queue == [] && s.batch == []
  }

  /** The items come from entries in the order in which those were accepted, each from another one. */
  predicate InOrder(s: State) {
    && (forall i, j :: 0 <= i < j < |Items(s)| ==> Items(s)[i].src < Items(s)[j].src)
    && (forall i :: 0 <= i < |Items(s)| ==> Items(s)[i].src + HandSize(s) < s.received)
  }

  /** The record and the line are those of the entry. */
  predicate ItemOf(c: Config, e: Entry, it: Item) {
    if e.bodySkipped then it.rec == SkippedRecord(e)
    else
      it.rec.filePath == Some(BuildRelPath(e.projectId, it.writtenAt, c.offset))
      && it.rec == WrittenRecord(e, Place(it.rec.filePath.value, it.rec.fileOffset))
      && it.line == MarshalJsonl(c.codec, e, c.stamp(it.writtenAt))
  }

  predicate Traced(c: Config, s: State) {
    forall i :: 0 <= i < |Items(s)| ==>
      Items(s)[i].src < |s.accepted| && ItemOf(c, s.accepted[Items(s)[i].src], Items(s)[i])
  }

  /** Rows stand for inserted items, the identifier being the position. */
  predicate TableOk(s: State) {
    && Ascending(s.table)
    && forall k :: 0 <= k < |s.table| ==> 0 < s.table[k].id <= |s.log| && s.table[k].rec == s.log[s.table[k].id - 1].rec
  }

  predicate CountsOk(c: Config, s: State) {
    Conserved(c, s) && Queued(s) && PhaseOk(c, s)
  }

  predicate ItemsOk(c: Config, s: State) {
    InOrder(s) && Traced(c, s) && TableOk(s)
  }

  predicate FlowOk(c: Config, s: State) {
    CountsOk(c, s) && ItemsOk(c, s)
  }

  lemma {:induction false} FlowInitial(c: Config, now: nat)
    requires ConfigOk(c)
    ensures FlowOk(c, Initial(c, now))
  {
  }

  // One lemma for each way a step moves entries or items

  /** A step that leaves items and rows alone keeps what is said about them. */
  lemma {:induction false} ItemsFrame(c: Config, s: State, t: State)
    requires ItemsOk(c, s) && Items(t) == Items(s) && t.log == s.log && t.table == s.table
    requires s.accepted <= t.accepted && s.received + HandSize(t) <= t.received + HandSize(s)
    ensures ItemsOk(c, t)
  {
  }

  lemma {:induction false} SubmitFlow(c: Config, s: State, e: Entry, t: State)
    requires ConfigOk(c) && FlowOk(c, s) && IsStep(c, s, Submit(e), t)
    ensures FlowOk(c, t)
  {
    SubmitCounts(c, s, e, t);
    SubmitItems(c, s, t);
  }

  lemma {:induction false} SubmitCounts(c: Config, s: State, e: Entry, t: State)
    requires CountsOk(c, s) && s.submitted + 1 == t.submitted
    requires t == if |s.queue| < c.channelSize
                  then s.(submitted := t.submitted, queue := s.queue + [e], accepted := s.accepted + [e],
                          uncounted := s.uncounted + 1)
                  else s.(submitted := t.submitted, dropped := s.dropped + 1)
    requires !s.closing
    ensures CountsOk(c, t)
  {
    assert (s.accepted + [e])[s.received..] == s.accepted[s.received..] + [e];
  }

  lemma {:induction false} SubmitItems(c: Config, s: State, t: State)
    requires ItemsOk(c, s) && s.accepted <= t.accepted
    requires t == s.(submitted := t.submitted, queue := t.queue, accepted := t.accepted, uncounted := t.uncounted,
                     dropped := t.dropped)
    ensures ItemsOk(c, t)
  {
    ItemsFrame(c, s, t);
  }

  lemma {:induction false} ReceiveFlow(c: Config, s: State, t: State)
    requires ConfigOk(c) && FlowOk(c, s) && IsStep(c, s, Receive, t)
    ensures FlowOk(c, t)
  {
    ItemsFrame(c, s, t);
  }

  /** The entry in hand becomes an item of the batch. */
  lemma {:induction false} BatchedFlow(c: Config, s: State, u: State, item: Item, t: State)
    requires ConfigOk(c) && FlowOk(c, s) && s.phase.InHand?
    requires u == s.(pool := u.pool, disk := u.disk, syncFailed := u.syncFailed) && t == Batched(c, u, item)
    requires item.src == s.phase.src && ItemOf(c, s.phase.entry, item)
    ensures FlowOk(c, t)
  {
    assert Items(t) == Items(s) + [item];
    assert CountsOk(c, t);
    BatchedItems(c, s, item, t);
  }

  lemma {:induction false} BatchedItems(c: Config, s: State, item: Item, t: State)
    requires ItemsOk(c, s) && s.phase.InHand? && !t.phase.InHand?
    requires Items(t) == Items(s) + [item] && t.log == s.log && t.table == s.table
    requires t.accepted == s.accepted && t.received == s.received
    requires item.src + 1 == s.received <= |s.accepted| && ItemOf(c, s.accepted[item.src], item)
    ensures ItemsOk(c, t)
  {
    forall i | 0 <= i < |Items(t)|
      ensures Items(t)[i].src < |t.accepted| && ItemOf(c, t.accepted[Items(t)[i].src], Items(t)[i])
      ensures Items(t)[i].src < t.received
      ensures i < |Items(s)| ==> Items(t)[i] == Items(s)[i]
    {
      if i < |Items(s)| {
        assert Items(t)[i] == Items(s)[i];
      }
    }
  }

  lemma {:induction false} SkippedFlow(c: Config, s: State, t: State)
    requires ConfigOk(c) && FlowOk(c, s) && IsStep(c, s, TakeSkipped, t)
    ensures FlowOk(c, t)
  {
    BatchedFlow(c, s, s, Item(SkippedRecord(s.phase.entry), s.phase.src, [], s.now), t);
  }

  lemma {:induction false} WrittenFlow(c: Config, s: State, fault: Fault, syncs: bool, t: State)
    requires ConfigOk(c) && FlowOk(c, s) && IsWrite(c, s, fault, syncs, t)
    ensures FlowOk(c, t)
  {
    var e := s.phase.entry;
    var path, line := BuildRelPath(e.projectId, s.now, c.offset), MarshalJsonl(c.codec, e, c.stamp(s.now));
    var w := Write(s.pool, s.disk, path, line, s.now, fault, syncs);
    if w.place != None {
      PlaceIsPath(s.pool, s.disk, path, line, s.now, fault, syncs, w);
    }
    AfterWriteFlow(c, s, path, line, w, t);
  }

  lemma {:induction false} AfterWriteFlow(c: Config, s: State, path: RelPath, line: Bytes, w: WriteResult, t: State)
    requires ConfigOk(c) && FlowOk(c, s) && s.phase.InHand? && !s.phase.entry.bodySkipped
    requires path == BuildRelPath(s.phase.entry.projectId, s.now, c.offset)
    requires line == MarshalJsonl(c.codec, s.phase.entry, c.stamp(s.now))
    requires (w.place != None ==> w.place.value.path == path) && t == AfterWrite(c, s, line, w)
    ensures FlowOk(c, t)
  {
    if w.place == None {
      ItemsFrame(c, s, t);
    } else {
      var u := s.(pool := w.pool, disk := w.disk, syncFailed := s.syncFailed || w.lost);
      BatchedFlow(c, s, u, Item(WrittenRecord(s.phase.entry, w.place.value), s.phase.src, line, s.now), t);
    }
  }

  lemma {:induction false} PlaceIsPath(p: Pool, d: Disk, path: RelPath, line: Bytes, now: nat, fault: Fault,
                                       syncs: bool, w: WriteResult)
    requires w == Write(p, d, path, line, now, fault, syncs) && w.place != None
    ensures w.place.value.path == path
  {
  }

  lemma {:induction false} InsertFlow(c: Config, s: State, ok: bool, times: seq<Instant>, t: State)
    requires ConfigOk(c) && FlowOk(c, s) && IsInsert(s, ok, times, t)
    ensures FlowOk(c, t)
  {
    if ok {
      InsertedFlow(c, s, RowsFrom(Records(s.batch), times, |s.log| + 1), times, t);
    } else if s.phase.attempt + 1 < MAX_RETRIES {
      FlushFlow(c, s, t);
    } else {
      DroppedFlow(c, s, t);
    }
  }

  /** The batch is to be tried for the given time, the records of that attempt being stamped from now on. */
  predicate TriedAgain(s: State, attempt: nat, t: State) {
    && t.phase.Inserting? && t.phase.attempt == attempt && t.phase.since == s.now
    && t.batch == s.batch && t.storeErrors == s.storeErrors && t.table == s.table
  }

  /** A batch is tried three times; after the third failure it is dropped and counted. */
  lemma {:induction false} ThreeAttempts(s: State, times: seq<Instant>)
    requires s.phase.Inserting? && s.phase.attempt == 0 && |times| == |s.batch|
    ensures var t := InsertBatch(s, false, times);
            TriedAgain(s, 1, t)
            && var u := InsertBatch(t, false, times);
               TriedAgain(s, 2, u)
               && var v := InsertBatch(u, false, times);
                  v.phase == (if s.phase.final then Stopped else Idle) && v.batch == [] && v.table == s.table
                  && v.storeErrors == s.storeErrors + |s.batch|
  {
  }

  lemma {:induction false} InsertedFlow(c: Config, s: State, rows: seq<Row>, times: seq<Instant>, t: State)
    requires FlowOk(c, s) && s.phase.Inserting? && |times| == |s.batch|
    requires rows == RowsFrom(Records(s.batch), times, |s.log| + 1)
    requires t == s.(table := s.table + rows, log := s.log + s.batch, batch := [], phase := AfterFlush(s.phase.final))
    ensures FlowOk(c, t)
  {
    InsertedCounts(c, s, t, |s.batch|, 0);
    assert Items(t) == Items(s);
    InsertedTable(s, times, t);
  }

  lemma {:induction false} DroppedFlow(c: Config, s: State, t: State)
    requires FlowOk(c, s) && s.phase.Inserting?
    requires t == s.(storeErrors := s.storeErrors + |s.batch|, batch := [], phase := AfterFlush(s.phase.final))
    ensures FlowOk(c, t)
  {
    InsertedCounts(c, s, t, 0, |s.batch|);
    DroppedItems(c, s, t);
  }

  lemma {:induction false} InsertedCounts(c: Config, s: State, t: State, stored: nat, lost: nat)
    requires CountsOk(c, s) && s.phase.Inserting? && stored + lost == |s.batch| && |t.log| == |s.log| + stored
    requires t == s.(table := t.table, log := t.log, storeErrors := s.storeErrors + lost, batch := [],
                     phase := AfterFlush(s.phase.final))
    ensures CountsOk(c, t)
  {
  }

  lemma {:induction false} DroppedItems(c: Config, s: State, t: State)
    requires ItemsOk(c, s) && t.batch == [] && t.log == s.log && t.table == s.table
    requires t.accepted == s.accepted && t.received == s.received && !s.phase.InHand? && !t.phase.InHand?
    ensures ItemsOk(c, t)
  {
    forall i | 0 <= i < |Items(t)|
      ensures Items(t)[i] == Items(s)[i] && i < |Items(s)|
    {
    }
  }

  lemma {:induction false} InsertedTable(s: State, times: seq<Instant>, t: State)
    requires TableOk(s) && |times| == |s.batch|
    requires t.table == s.table + RowsFrom(Records(s.batch), times, |s.log| + 1) && t.log == s.log + s.batch
    ensures TableOk(t)
  {
    var rows := RowsFrom(Records(s.batch), times, |s.log| + 1);
    forall k | 0 <= k < |t.table|
      ensures 0 < t.table[k].id <= |t.log| && t.table[k].rec == t.log[t.table[k].id - 1].rec
    {
      if k >= |s.table| {
        assert t.table[k] == rows[k - |s.table|];
      }
    }
  }

  lemma {:induction false} DeleteFlow(c: Config, s: State, deletes: bool, t: State)
    requires FlowOk(c, s) && IsStep(c, s, CleanDelete(deletes), t)
    ensures FlowOk(c, t)
  {
    if deletes {
      KeptFlow(c, s, s.cleaner.project, s.cleaner.before, t);
    } else {
      CleanerFlow(c, s, t);
    }
  }

  lemma {:induction false} KeptFlow(c: Config, s: State, project: int, before: Instant, t: State)
    requires FlowOk(c, s) && t == s.(table := Kept(s.table, project, before), cleaner := t.cleaner)
    ensures FlowOk(c, t)
  {
    ItemsFrame(c, s, t.(table := s.table));
    KeptTable(s, project, before, t);
  }

  lemma {:induction false} KeptTable(s: State, project: int, before: Instant, t: State)
    requires TableOk(s) && t.table == Kept(s.table, project, before) && t.log == s.log
    ensures TableOk(t)
  {
    KeptMembers(s.table, project, before);
    forall k | 0 <= k < |t.table|
      ensures 0 < t.table[k].id <= |s.log| && t.table[k].rec == s.log[t.table[k].id - 1].rec
    {
      assert t.table[k] in s.table;
    }
  }

  lemma {:induction false} CleanerFlow(c: Config, s: State, t: State)
    requires FlowOk(c, s) && s.now <= t.now
    requires t == s.(disk := t.disk, cleaner := t.cleaner, countFailed := t.countFailed, now := t.now,
                     projects := t.projects, listed := t.listed, flushLate := t.flushLate)
    ensures FlowOk(c, t)
  {
    ItemsFrame(c, s, t);
  }

  lemma {:induction false} FlushFlow(c: Config, s: State, t: State)
    requires FlowOk(c, s) && PhaseOk(c, t) && s.phase.InHand? == t.phase.InHand? == false
    requires t == s.(disk := t.disk, pool := t.pool, phase := t.phase, syncFailed := t.syncFailed, closing := t.closing)
    ensures FlowOk(c, t)
  {
    ItemsFrame(c, s, t);
  }

  lemma {:induction false} CountFlow(c: Config, s: State, t: State)
    requires FlowOk(c, s) && s.uncounted > 0
    requires t == s.(uncounted := s.uncounted - 1, captureTotal := s.captureTotal + 1)
    ensures FlowOk(c, t)
  {
    ItemsFrame(c, s, t);
  }

  lemma {:induction false} ClosingFlow(c: Config, s: State)
    requires FlowOk(c, s)
    ensures FlowOk(c, s.(closing := true))
  {
    ItemsFrame(c, s, s.(closing := true));
  }

  /** The steps of a flush that move no items. */
  predicate IsFlush(l: Label) {
    l.ReceiveClosed? || l.Tick? || l.SyncPool? || l.CloseFiles?
  }

  lemma {:induction false} FlushStep(c: Config, s: State, l: Label, t: State)
    requires FlowOk(c, s) && IsStep(c, s, l, t) && IsFlush(l)
    ensures FlowOk(c, t)
  {
    FlushFlow(c, s, t);
  }

  lemma {:induction false} CleanerStep(c: Config, s: State, l: Label, t: State)
    requires FlowOk(c, s) && IsStep(c, s, l, t)
    requires l.Advance? || IsCleaning(l)
    ensures FlowOk(c, t)
  {
    if l.CleanDelete? {
      DeleteFlow(c, s, l.deletes, t);
    } else {
      CleanerFlow(c, s, t);
    }
  }

  lemma {:induction false} ProjectsStep(c: Config, s: State, l: Label, t: State)
    requires FlowOk(c, s) && IsStep(c, s, l, t) && ChangesProjects(l)
    ensures FlowOk(c, t)
  {
    CleanerFlow(c, s, t);
  }

  lemma {:induction false} EntryStep(c: Config, s: State, l: Label, t: State)
    requires ConfigOk(c) && FlowOk(c, s) && IsStep(c, s, l, t)
    requires !ChangesProjects(l) && !l.Advance? && !IsCleaning(l) && !IsFlush(l)
    ensures FlowOk(c, t)
  {
    if l.Submit? {
      SubmitFlow(c, s, l.entry, t);
    } else if l.CountSubmitted? {
      CountFlow(c, s, t);
    } else if l.Receive? {
      ReceiveFlow(c, s, t);
    } else if l.TakeSkipped? {
      SkippedFlow(c, s, t);
    } else if l.TakeWritten? {
      WrittenFlow(c, s, l.fault, l.syncs, t);
    } else if l.Insert? {
      InsertFlow(c, s, l.ok, l.times, t);
    } else {
      ClosingFlow(c, s);
    }
  }

  lemma {:induction false} FlowStep(c: Config, s: State, l: Label, t: State)
    requires ConfigOk(c) && FlowOk(c, s) && IsStep(c, s, l, t)
    ensures FlowOk(c, t)
  {
    if ChangesProjects(l) {
      ProjectsStep(c, s, l, t);
    } else if l.Advance? || IsCleaning(l) {
      CleanerStep(c, s, l, t);
    } else if IsFlush(l) {
      FlushStep(c, s, l, t);
    } else {
      EntryStep(c, s, l, t);
    }
  }

  /** In every run, whatever the interleaving, all of this holds. */
  lemma {:induction false} FlowAlways(c: Config, s: State, run: seq<Label>, t: State)
    requires ConfigOk(c) && FlowOk(c, s) && Steps(c, s, run, t)
    ensures FlowOk(c, t)
    decreases |run|
  {
    if run != [] {
      FlowStep(c, s, run[0], Apply(c, s, run[0]));
      FlowAlways(c, Apply(c, s, run[0]), run[1..], t);
    }
  }

  // What this means for a run from the start

  /** Every submitted entry is accounted for, at every moment. */
  lemma {:induction false} Conservation(c: Config, start: nat, run: seq<Label>, t: State)
    requires ConfigOk(c) && Steps(c, Initial(c, start), run, t)
    ensures t.submitted == t.captureTotal + t.uncounted + t.dropped
    ensures t.captureTotal + t.uncounted
         == |t.queue| + HandSize(t) + |t.batch| + |t.log| + t.writeErrors + t.storeErrors
    ensures |t.queue| <= c.channelSize && |t.batch| <= c.batchSize
  {
    FlowInitial(c, start);
    FlowAlways(c, Initial(c, start), run, t);
  }

  /** The source of a row: the position of its entry among the accepted ones. */
  function RowSource(s: State, row: Row): nat
    requires 0 < row.id <= |s.log|
  {
    s.log[row.id - 1].src
  }

  /** The stored records, by identifier, are a subsequence of the accepted entries: none comes twice or out of turn. */
  lemma {:induction false} FifoAtMostOnce(c: Config, start: nat, run: seq<Label>, t: State, i: nat, j: nat)
    requires ConfigOk(c) && Steps(c, Initial(c, start), run, t)
    requires i < j < |t.table|
    ensures 0 < t.table[i].id < t.table[j].id <= |t.log|
    ensures RowSource(t, t.table[i]) < RowSource(t, t.table[j]) < |t.accepted|
    ensures ItemOf(c, t.accepted[RowSource(t, t.table[i])], t.log[t.table[i].id - 1])
    ensures t.table[i].rec == t.log[t.table[i].id - 1].rec
  {
    FlowInitial(c, start);
    FlowAlways(c, Initial(c, start), run, t);
    RowsInOrder(c, t, i, j);
  }

  lemma {:induction false} RowsInOrder(c: Config, t: State, i: nat, j: nat)
    requires ItemsOk(c, t) && i < j < |t.table|
    ensures 0 < t.table[i].id < t.table[j].id <= |t.log|
    ensures RowSource(t, t.table[i]) < RowSource(t, t.table[j]) < |t.accepted|
    ensures ItemOf(c, t.accepted[RowSource(t, t.table[i])], t.log[t.table[i].id - 1])
    ensures t.table[i].rec == t.log[t.table[i].id - 1].rec
  {
    var a, b := t.table[i].id - 1, t.table[j].id - 1;
    LogInOrder(t, a, b);
    LogTraced(c, t, a);
    LogTraced(c, t, b);
  }

  lemma {:induction false} LogInOrder(t: State, a: nat, b: nat)
    requires InOrder(t) && a < b < |t.log|
    ensures t.log[a].src < t.log[b].src
  {
    assert Items(t)[a] == t.log[a] && Items(t)[b] == t.log[b];
  }

  lemma {:induction false} LogTraced(c: Config, t: State, a: nat)
    requires Traced(c, t) && a < |t.log|
    ensures t.log[a].src < |t.accepted| && ItemOf(c, t.accepted[t.log[a].src], t.log[a])
  {
    assert Items(t)[a] == t.log[a];
  }

  /** When the consumer has stopped, nothing is left over: every accepted entry is stored or counted as an error. */
  lemma {:induction false} DrainedFlow(c: Config, start: nat, run: seq<Label>, t: State)
    requires ConfigOk(c) && Steps(c, Initial(c, start), run, t)
    requires t.phase.Stopped? || t.phase.Closed?
    ensures t.queue == [] && t.batch == []
    ensures |t.accepted| == |t.log| + t.writeErrors + t.storeErrors
  {
    FlowInitial(c, start);
    FlowAlways(c, Initial(c, start), run, t);
  }
}
