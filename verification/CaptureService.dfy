/** The capture service: the bounded channel, the batch and the counters, updated in place. */
module CaptureService {
  import opened Sequences
  import opened Lines
  import opened Json
  import opened Calendar
  import opened CaptureEntry
  import opened CaptureStore
  import opened FilePool
  import opened CaptureWriter
  import opened CaptureFiles
  import opened CapturePipeline
  import opened PipelineFlow
  import opened PipelineGuarantees

  lemma {:induction false} RecordsAppend(items: seq<Item>, item: Item)
    ensures Records(items + [item]) == Records(items) + [item.rec]
  {
  }

  // What the outside world answers

  /**
   One attempt to insert: the statement that fails, and the time that passes before each record's statement, the pause
   between two attempts included.
   */
  datatype InsertAnswer = InsertAnswer(fault: nat, elapsed: nat -> nat)

  datatype FlushAnswers = FlushAnswers(failing: set<nat>, inserts: nat -> InsertAnswer)

  /** For one entry: the time passed, what goes wrong with its file, and what becomes of a flush after it. */
  datatype EntryAnswers = EntryAnswers(elapsed: nat, fault: Fault, syncs: bool, flush: FlushAnswers)

  /** The clock when the first `n` records have had their statements. */
  function Passed(clock: nat, elapsed: nat -> nat, n: nat): (now: nat)
    ensures clock <= now
  {
    if n == 0 then clock else Passed(clock, elapsed, n - 1) + elapsed(n - 1)
  }

  /** The times of a batch can be written; SQLite has no text for one past the year 9999, and the statement fails. */
  predicate TimesFit(n: nat, clock: nat, answer: InsertAnswer) {
    Representable(Passed(clock, answer.elapsed, n))
  }

  predicate Succeeds(n: nat, clock: nat, answer: InsertAnswer) {
    TimesFit(n, clock, answer) && Commits(n, answer.fault)
  }

  /** When each record of a batch was stamped. */
  function Stamps(n: nat, clock: nat, answer: InsertAnswer): (times: seq<Instant>)
    ensures |times| == n
    ensures TimesFit(n, clock, answer) ==> Stamped(times, clock, Passed(clock, answer.elapsed, n))
  {
    if n == 0 then []
    else if !TimesFit(n, clock, answer) then seq(n, (k: nat) => 0)
    else
      RepresentableBefore(Passed(clock, answer.elapsed, n - 1), Passed(clock, answer.elapsed, n));
      Stamps(n - 1, clock, answer) + [Passed(clock, answer.elapsed, n)]
  }

  /** Each record is stamped when its own statement has run, which the statements before it delay. */
  lemma {:induction false} StampsAt(n: nat, clock: nat, answer: InsertAnswer, k: nat)
    requires TimesFit(n, clock, answer) && k < n
    ensures Stamps(n, clock, answer)[k] == Passed(clock, answer.elapsed, k + 1)
    ensures Passed(clock, answer.elapsed, 0) == clock
    ensures Passed(clock, answer.elapsed, k + 1) == Passed(clock, answer.elapsed, k) + answer.elapsed(k)
  {
    if k < n - 1 {
      RepresentableBefore(Passed(clock, answer.elapsed, n - 1), Passed(clock, answer.elapsed, n));
      StampsAt(n - 1, clock, answer, k);
    }
  }

  /** The steps of one attempt to insert a batch of `n` records. */
  function InsertStep(n: nat, clock: nat, answer: InsertAnswer): seq<Label> {
    [Advance(Passed(clock, answer.elapsed, n)), Insert(Succeeds(n, clock, answer), Stamps(n, clock, answer))]
  }

  /** The steps in which a batch of `n` records is inserted, from some attempt on: up to the first that commits. */
  function InsertSteps(n: nat, clock: nat, inserts: nat -> InsertAnswer, attempt: nat): seq<Label>
    requires attempt <= MAX_RETRIES
    decreases MAX_RETRIES - attempt
  {
    if attempt == MAX_RETRIES then []
    else
      InsertStep(n, clock, inserts(attempt))
      + if Succeeds(n, clock, inserts(attempt)) then []
        else InsertSteps(n, Passed(clock, inserts(attempt).elapsed, n), inserts, attempt + 1)
  }

  lemma {:induction false} InsertStepsNext(before: seq<Label>, after: seq<Label>, n: nat, clock: nat,
                                           inserts: nat -> InsertAnswer, attempt: nat)
    requires attempt < MAX_RETRIES && after == before + InsertStep(n, clock, inserts(attempt))
    ensures Succeeds(n, clock, inserts(attempt)) ==> after == before + InsertSteps(n, clock, inserts, attempt)
    ensures !Succeeds(n, clock, inserts(attempt)) ==>
              after + InsertSteps(n, Passed(clock, inserts(attempt).elapsed, n), inserts, attempt + 1)
              == before + InsertSteps(n, clock, inserts, attempt)
  {
    Associate(before, InsertStep(n, clock, inserts(attempt)),
              InsertSteps(n, Passed(clock, inserts(attempt).elapsed, n), inserts, attempt + 1));
  }

  /** The steps of a flush: first the sync of the files, then the insert. */
  function FlushSteps(n: nat, clock: nat, a: FlushAnswers): seq<Label> {
    [SyncPool(a.failing)] + InsertSteps(n, clock, a.inserts, 0)
  }

  /** The steps after `taken` are those of a flush, or none. */
  predicate PerhapsFlushed(trace: seq<Label>, taken: seq<Label>, n: nat, clock: nat, a: FlushAnswers) {
    trace == taken || trace == taken + FlushSteps(n, clock, a)
  }

  function TakeStep(e: Entry, a: EntryAnswers): Label {
    if e.bodySkipped then TakeSkipped else TakeWritten(a.fault, a.syncs)
  }

  /** The steps that take an entry off the channel and into the batch. */
  function EntrySteps(before: seq<Label>, clock: nat, e: Entry, a: EntryAnswers): seq<Label> {
    before + [Advance(clock + a.elapsed)] + [Receive] + [TakeStep(e, a)]
  }

  // The consumer around its attempts to insert the batch

  /** The consumer is at an attempt; since `s` nothing but time has passed. */
  predicate AtAttempt(s: State, attempt: nat, t: State)
    requires s.phase.Inserting?
  {
    && t.phase.Inserting? && t.phase.attempt == attempt && t.phase.final == s.phase.final && t.phase.since <= t.now
    && t == s.(now := t.now, flushLate := t.flushLate, phase := t.phase)
  }

  predicate Stored(s: State, t: State)
    requires s.phase.Inserting?
  {
    t == s.(now := t.now, flushLate := t.flushLate, table := t.table, log := s.log + s.batch, batch := [],
            phase := AfterFlush(s.phase.final))
  }

  predicate Dropped(s: State, t: State)
    requires s.phase.Inserting?
  {
    t == s.(now := t.now, flushLate := t.flushLate, storeErrors := s.storeErrors + |s.batch|, batch := [],
            phase := AfterFlush(s.phase.final))
  }

  lemma {:induction false} InsertIs(s: State, attempt: nat, t: State, ok: bool, times: seq<Instant>, u: State)
    requires s.phase.Inserting? && attempt < MAX_RETRIES && AtAttempt(s, attempt, t) && |times| == |s.batch|
    requires u == CapturePipeline.InsertBatch(t, ok, times)
    ensures u.now == t.now
    ensures ok ==> Stored(s, u) && u.table == s.table + RowsFrom(Records(s.batch), times, |s.log| + 1)
    ensures !ok ==> if attempt + 1 < MAX_RETRIES then AtAttempt(s, attempt + 1, u) else Dropped(s, u)
  {
  }

  /** Either way the batch is gone, into the log or into the count of errors, and nothing else has changed. */
  predicate Inserted(s: State, inserted: bool, t: State)
    requires s.phase.Inserting?
  {
    && t.batch == [] && t.phase == AfterFlush(s.phase.final)
    && |t.log| == |s.log| + (if inserted then |s.batch| else 0)
    && t.storeErrors == s.storeErrors + (if inserted then 0 else |s.batch|)
    && t.queue == s.queue && t.closing == s.closing && t.dropped == s.dropped
    && t.captureTotal == s.captureTotal && t.uncounted == s.uncounted && t.writeErrors == s.writeErrors
    && t.pool == s.pool && t.disk == s.disk
  }

  lemma {:induction false} InsertOutcome(s: State, inserted: bool, t: State)
    requires s.phase.Inserting? && if inserted then Stored(s, t) else Dropped(s, t)
    ensures Inserted(s, inserted, t) && (!inserted ==> t.table == s.table)
  {
  }

  /**
   The entry in hand has become an error, or the batch's last record; index, queue and the other counters are as
   before.
   */
  predicate WriteTaken(c: Config, s: State, place: Option<Place>, t: State)
    requires s.phase.InHand?
  {
    && t.table == s.table && t.log == s.log
    && t.queue == s.queue && t.closing == s.closing && t.now == s.now && t.dropped == s.dropped
    && t.captureTotal == s.captureTotal && t.uncounted == s.uncounted && t.storeErrors == s.storeErrors
    && (place == None ==> t.batch == s.batch && t.writeErrors == s.writeErrors + 1 && t.phase == Idle)
    && (place != None ==> Records(t.batch) == Records(s.batch) + [WrittenRecord(s.phase.entry, place.value)])
    && (place != None ==> t.writeErrors == s.writeErrors)
    && (place != None ==> t.phase == if |s.batch| + 1 >= c.batchSize then Flushing(false) else Idle)
  }

  lemma {:induction false} WrittenOutcome(c: Config, s: State, fault: Fault, syncs: bool, line: Bytes, w: WriteResult,
                                          t: State)
    requires s.phase.InHand? && line == MarshalJsonl(c.codec, s.phase.entry, c.stamp(s.now))
    requires w == CaptureWriter.Write(s.pool, s.disk, BuildRelPath(s.phase.entry.projectId, s.now, c.offset), line,
                                      s.now, fault, syncs)
    requires t == TakeWrite(c, s, fault, syncs)
    ensures t.pool == w.pool && t.disk == w.disk && WriteTaken(c, s, w.place, t)
  {
    if w.place != None {
      RecordsAppend(s.batch, Item(WrittenRecord(s.phase.entry, w.place.value), s.phase.src, line, s.now));
    }
  }

  class Service {
    const config: Config
    const writer: FileWriter
    const store: Store
    const startedAt: nat
    var entries: seq<Entry>
    var closed: bool
    var dropped: nat
    var captureTotal: nat
    var writeErrors: nat
    var storeErrors: nat
    var batch: seq<Record>
    var clock: nat
    /** Entries sent and not yet counted. */
    ghost var uncounted: nat
    ghost var model: State
    ghost var trace: seq<Label>

    /** The steps so far have led the step system to `model`, and the fields are what `model` says. */
    ghost predicate Valid()
      reads this, writer.pool, writer.pool.files, store
    {
      && Reached(config, startedAt, trace, model) && clock == model.now
      && store.table == model.table && store.nextId == |model.log| + 1
      && FilesMatch(model) && FieldsMatch(model)
    }

    ghost predicate FilesMatch(s: State)
      reads this, writer.pool, writer.pool.files
    {
      && writer.codec == config.codec && writer.stamp == config.stamp && writer.offset == config.offset
      && writer.pool.Valid() && writer.pool.View() == s.pool && writer.pool.files.disk == s.disk
    }

    ghost predicate FieldsMatch(s: State)
      reads this
    {
      && entries == s.queue && closed == s.closing
      && dropped == s.dropped && captureTotal == s.captureTotal && uncounted == s.uncounted
      && writeErrors == s.writeErrors && storeErrors == s.storeErrors
      && batch == Records(s.batch)
    }

    constructor (channelSize: int, batchSize: int, codec: Codec, stamp: nat -> string, offset: nat, now: nat)
      requires Lawful(codec)
      ensures Valid() && model.phase.Idle? && fresh(writer.pool) && fresh(writer.pool.files) && fresh(store)
      ensures config.channelSize == (if channelSize <= 0 then 256 else channelSize)
      ensures config.batchSize == (if batchSize <= 0 then 100 else batchSize) && config.poolSize == 16
    {
      var c := Config(if channelSize <= 0 then 256 else channelSize, if batchSize <= 0 then 100 else batchSize,
                      16, codec, stamp, offset);
      var files := new FileSystem();
      var pool := new LruFilePool(16, files);
      var w := new FileWriter(codec, stamp, offset, pool);
      var s := new Store();
      config, writer, store, startedAt := c, w, s, now;
      entries, closed, dropped, captureTotal, writeErrors, storeErrors, batch := [], false, 0, 0, 0, 0, [];
      clock, uncounted, model, trace := now, 0, Initial(c, now), [];
    }

    /** Takes one step of the step system. */
    ghost method Step(l: Label)
      requires Reached(config, startedAt, trace, model) && Enabled(config, model, l)
      modifies this`model, this`trace
      ensures model == Apply(config, old(model), l) && trace == old(trace) + [l]
      ensures Reached(config, startedAt, trace, model)
    {
      var next := Apply(config, model, l);
      assert Steps(config, model, [l], next);
      StepsJoin(config, Initial(config, startedAt), trace, model, [l], next);
      model, trace := next, trace + [l];
    }

    ghost method StepWritten(fault: Fault, syncs: bool)
      requires Reached(config, startedAt, trace, model) && model.phase.InHand? && !model.phase.entry.bodySkipped
      modifies this`model, this`trace
      ensures model == TakeWrite(config, old(model), fault, syncs) && trace == old(trace) + [TakeWritten(fault, syncs)]
      ensures Reached(config, startedAt, trace, model)
    {
      Step(TakeWritten(fault, syncs));
    }

    ghost method StepInsert(ok: bool, times: seq<Instant>)
      requires Reached(config, startedAt, trace, model) && model.phase.Inserting? && |times| == |model.batch|
      requires ok ==> Stamped(times, model.phase.since, model.now)
      modifies this`model, this`trace
      ensures model == CapturePipeline.InsertBatch(old(model), ok, times) && trace == old(trace) + [Insert(ok, times)]
      ensures Reached(config, startedAt, trace, model)
    {
      Step(Insert(ok, times));
    }

    ghost method StepSync(failing: set<nat>)
      requires Reached(config, startedAt, trace, model) && model.phase.Flushing?
      modifies this`model, this`trace
      ensures model == old(model).(disk := SyncHandles(old(model).disk, old(model).pool.order, failing),
                                   phase := Inserting(0, old(model).phase.final, old(model).now),
                                   syncFailed := model.syncFailed)
      ensures Reached(config, startedAt, trace, model) && trace == old(trace) + [SyncPool(failing)]
    {
      Step(SyncPool(failing));
    }

    /** Sends an entry unless the channel is full; never blocks. */
    method Send(entry: Entry) returns (sent: bool)
      requires Valid() && !closed
      modifies this`entries, this`dropped, this`uncounted, this`model, this`trace
      ensures Valid() && sent == (old(|entries|) < config.channelSize) && trace == old(trace) + [Label.Submit(entry)]
      ensures model.phase == old(model).phase && uncounted == old(uncounted) + if sent then 1 else 0
      ensures entries == if sent then old(entries) + [entry] else old(entries)
      ensures dropped == if sent then old(dropped) else old(dropped) + 1
    {
      Step(Label.Submit(entry));
      sent := |entries| < config.channelSize;
      if sent {
        entries := entries + [entry];
        uncounted := uncounted + 1;
      } else {
        dropped := dropped + 1;
      }
    }

    /** Counts an entry that was sent; anything may happen between the two. */
    method CountSent()
      requires Valid() && uncounted > 0
      modifies this`captureTotal, this`uncounted, this`model, this`trace
      ensures Valid() && captureTotal == old(captureTotal) + 1 && trace == old(trace) + [CountSubmitted]
      ensures model.phase == old(model).phase && uncounted == old(uncounted) - 1
    {
      Step(CountSubmitted);
      captureTotal, uncounted := captureTotal + 1, uncounted - 1;
    }

    /** Enqueues an entry unless the channel is full, and counts it. */
    method Submit(entry: Entry)
      requires Valid() && !closed
      modifies this
      ensures Valid() && model.phase == old(model).phase && uncounted == old(uncounted)
      ensures old(|entries|) < config.channelSize ==>
        entries == old(entries) + [entry] && captureTotal == old(captureTotal) + 1 && dropped == old(dropped)
      ensures old(|entries|) >= config.channelSize ==>
        entries == old(entries) && captureTotal == old(captureTotal) && dropped == old(dropped) + 1
      ensures batch == old(batch) && writeErrors == old(writeErrors) && storeErrors == old(storeErrors)
    {
      var sent := Send(entry);
      if sent {
        CountSent();
      }
    }

    /** Reads the clock, `elapsed` after the last time. */
    method ReadClock(elapsed: nat) returns (now: nat)
      requires Valid()
      modifies this`clock, this`model, this`trace
      ensures Valid() && now == clock == old(clock) + elapsed
      ensures model == old(model).(now := now, flushLate := model.flushLate) && trace == old(trace) + [Advance(now)]
    {
      now := clock + elapsed;
      Step(Advance(now));
      clock := now;
    }

    /** The phase after the batch has grown: a full batch is to be flushed. */
    ghost function Grown(): Phase
      reads this
    {
      if |batch| >= config.batchSize then Flushing(false) else Idle
    }

    method TakeSkippedEntry(entry: Entry)
      requires Valid() && model.phase.InHand? && model.phase.entry == entry && entry.bodySkipped
      modifies this`batch, this`model, this`trace
      ensures Valid() && trace == old(trace) + [TakeSkipped] && model.phase == Grown()
      ensures |batch| == |old(batch)| + 1 && batch[..|old(batch)|] == old(batch)
      ensures Describes(batch[|old(batch)|], entry)
    {
      RecordsDescribe(entry, Place(RelPath(0, 0), 0));
      RecordsAppend(model.batch, Item(SkippedRecord(entry), model.phase.src, [], model.now));
      Step(TakeSkipped);
      batch := batch + [SkippedRecord(entry)];
    }

    method WriteToFile(entry: Entry, fault: Fault, syncs: bool) returns (place: Option<Place>)
      requires Valid() && model.phase.InHand? && model.phase.entry == entry && !entry.bodySkipped
      modifies this`model, this`trace, writer.pool, writer.pool.files
      ensures Reached(config, startedAt, trace, model) && trace == old(trace) + [TakeWritten(fault, syncs)]
      ensures writer.pool.Valid() && writer.pool.View() == model.pool && writer.pool.files.disk == model.disk
      ensures WriteTaken(config, old(model), place, model)
    {
      ghost var s, line := model, MarshalJsonl(config.codec, entry, config.stamp(clock));
      ghost var path := BuildRelPath(entry.projectId, clock, config.offset);
      ghost var w := CaptureWriter.Write(model.pool, model.disk, path, line, clock, fault, syncs);
      place := writer.WriteEntry(entry, clock, fault, syncs);
      StepWritten(fault, syncs);
      WrittenOutcome(config, s, fault, syncs, line, w, model);
    }

    method TakeWrittenEntry(entry: Entry, fault: Fault, syncs: bool) returns (written: bool)
      requires Valid() && model.phase.InHand? && model.phase.entry == entry && !entry.bodySkipped
      modifies this`batch, this`writeErrors, this`model, this`trace, writer.pool, writer.pool.files
      ensures Valid() && trace == old(trace) + [TakeWritten(fault, syncs)]
      ensures written ==> model.phase == Grown() && writeErrors == old(writeErrors)
      ensures written ==> |batch| == |old(batch)| + 1 && batch[..|old(batch)|] == old(batch)
      ensures written ==> Describes(batch[|old(batch)|], entry)
      ensures !written ==> batch == old(batch) && model.phase == Idle && writeErrors == old(writeErrors) + 1
    {
      var place := WriteToFile(entry, fault, syncs);
      if place == None {
        writeErrors := writeErrors + 1;
        return false;
      }
      RecordsDescribe(entry, place.value);
      batch := batch + [WrittenRecord(entry, place.value)];
      return true;
    }

    method ReceiveEntry(elapsed: nat) returns (entry: Entry)
      requires Valid() && model.phase.Idle? && entries != []
      modifies this`entries, this`clock, this`model, this`trace
      ensures Valid() && model.phase.InHand? && model.phase.entry == entry == old(entries)[0]
      ensures entries == old(entries)[1..] && trace == old(trace) + [Advance(old(clock) + elapsed)] + [Receive]
      ensures clock == old(clock) + elapsed
    {
      var now := ReadClock(elapsed);
      Step(Receive);
      entry := entries[0];
      entries := entries[1..];
    }

    /** Writes an entry that is to be written and batches its record, unless the write fails. */
    method TakeEntry(entry: Entry, a: EntryAnswers) returns (batched: bool)
      requires Valid() && model.phase.InHand? && model.phase.entry == entry
      modifies this`batch, this`writeErrors, this`model, this`trace, writer.pool, writer.pool.files
      ensures Valid() && trace == old(trace) + [TakeStep(entry, a)]
      ensures batched ==> |batch| == |old(batch)| + 1 && model.phase == Grown()
      ensures !batched ==> model.phase == Idle
    {
      if entry.bodySkipped {
        TakeSkippedEntry(entry);
        return true;
      }
      batched := TakeWrittenEntry(entry, a.fault, a.syncs);
    }

    method FlushIfFull(a: FlushAnswers)
      requires Valid() && model.phase == Grown()
      modifies this`batch, this`storeErrors, this`clock, this`model, this`trace, writer.pool.files`disk, store
      ensures Valid() && model.phase.Idle?
      ensures trace == if |old(batch)| < config.batchSize then old(trace)
                       else old(trace) + FlushSteps(|old(batch)|, old(clock), a)
    {
      if |batch| >= config.batchSize {
        Flush(a);
      }
    }

    /** An entry in hand is batched, unless its write fails, and a full batch flushed. */
    method TakeAndFlush(entry: Entry, a: EntryAnswers)
      requires Valid() && model.phase.InHand? && model.phase.entry == entry
      modifies this`batch, this`writeErrors, this`storeErrors, this`clock, this`model, this`trace
      modifies writer.pool, writer.pool.files, store
      ensures Valid() && model.phase.Idle?
      ensures PerhapsFlushed(trace, old(trace) + [TakeStep(entry, a)], |old(batch)| + 1, old(clock), a.flush)
    {
      var batched := TakeEntry(entry, a);
      if batched {
        FlushIfFull(a.flush);
      }
    }

    /**
     One entry from the channel: written to its file, batched, and the batch flushed when it is full. Which steps
     were taken determines the new state; a flush among them is possible exactly when the batch was full.
     */
    method ProcessEntry(a: EntryAnswers) returns (ghost taken: seq<Label>)
      requires Valid() && model.phase.Idle? && entries != []
      modifies this, writer.pool, writer.pool.files, store
      ensures Valid() && model.phase.Idle?
      ensures entries == old(entries)[1..] && closed == old(closed)
      ensures captureTotal == old(captureTotal) && dropped == old(dropped) && uncounted == old(uncounted)
      ensures taken == EntrySteps(old(trace), old(clock), old(entries)[0], a)
      ensures PerhapsFlushed(trace, taken, |old(batch)| + 1, old(clock) + a.elapsed, a.flush)
    {
      var entry := ReceiveEntry(a.elapsed);
      taken := trace + [TakeStep(entry, a)];
      TakeAndFlush(entry, a);
    }

    /** The ticker: flushes whatever there is. */
    method OnTick(a: FlushAnswers)
      requires Valid() && model.phase.Idle?
      modifies this`batch, this`storeErrors, this`clock, this`model, this`trace, writer.pool.files`disk, store
      ensures Valid() && model.phase.Idle? && batch == []
      ensures trace == old(trace) + ([Tick] + if |old(batch)| == 0 then [] else FlushSteps(|old(batch)|, old(clock), a))
    {
      ghost var before := trace;
      Step(Tick);
      if |batch| == 0 {
        return;
      }
      Associate(before, [Tick], FlushSteps(|batch|, clock, a));
      Flush(a);
    }

    /**
     Syncs the files, then inserts the batch, trying up to three times; a batch that cannot be inserted is
     dropped.
     */
    method Flush(a: FlushAnswers)
      requires Valid() && model.phase.Flushing?
      modifies this`batch, this`storeErrors, this`clock, this`model, this`trace, writer.pool.files`disk, store
      ensures Valid() && batch == [] && model.phase == AfterFlush(old(model).phase.final)
      ensures trace == old(trace) + FlushSteps(|old(batch)|, old(clock), a)
      ensures (storeErrors == old(storeErrors) && store.nextId == old(store.nextId) + |old(batch)|)
           || (storeErrors == old(storeErrors) + |old(batch)| && store.table == old(store.table))
    {
      Associate(trace, [SyncPool(a.failing)], InsertSteps(|batch|, clock, a.inserts, 0));
      SyncFiles(a.failing);
      var inserted := InsertOrDrop(a.inserts, 0);
    }

    method SyncFiles(failing: set<nat>)
      requires Valid() && model.phase.Flushing?
      modifies this`model, this`trace, writer.pool.files`disk
      ensures Valid() && model.phase == Inserting(0, old(model).phase.final, clock)
      ensures trace == old(trace) + [SyncPool(failing)]
    {
      writer.pool.SyncAll(failing);
      StepSync(failing);
    }

    method InsertOrDrop(inserts: nat -> InsertAnswer, from: nat) returns (inserted: bool)
      requires Valid() && model.phase.Inserting? && model.phase.attempt == from < MAX_RETRIES
      modifies this`batch, this`storeErrors, this`clock, this`model, this`trace, store
      ensures Valid() && batch == [] && model.phase == AfterFlush(old(model).phase.final)
      ensures trace == old(trace) + InsertSteps(|old(batch)|, old(clock), inserts, from)
      ensures inserted ==> storeErrors == old(storeErrors) && store.nextId == old(store.nextId) + |old(batch)|
      ensures !inserted ==> storeErrors == old(storeErrors) + |old(batch)| && store.table == old(store.table)
    {
      ghost var s := model;
      inserted := TryToInsert(inserts, from);
      EmptyBatch(inserted, s);
    }

    /** The batch is stored, or dropped and counted. */
    method EmptyBatch(inserted: bool, ghost s: State)
      requires Reached(config, startedAt, trace, model) && clock == model.now
      requires store.table == model.table && store.nextId == |model.log| + 1
      requires FilesMatch(s) && FieldsMatch(s) && s.phase.Inserting? && Inserted(s, inserted, model)
      modifies this`batch, this`storeErrors
      ensures Valid() && batch == []
      ensures storeErrors == old(storeErrors) + if inserted then 0 else |old(batch)|
    {
      if !inserted {
        storeErrors := storeErrors + |batch|;
      }
      batch := [];
    }

    method TryToInsert(inserts: nat -> InsertAnswer, from: nat) returns (inserted: bool)
      requires Valid() && model.phase.Inserting? && model.phase.attempt == from < MAX_RETRIES
      modifies this`clock, this`model, this`trace, store
      ensures Reached(config, startedAt, trace, model) && clock == model.now
      ensures trace == old(trace) + InsertSteps(|batch|, old(clock), inserts, from)
      ensures Inserted(old(model), inserted, model) && model.table == store.table && store.nextId == |model.log| + 1
      ensures inserted ==> store.nextId == old(store.nextId) + |batch|
      ensures !inserted ==> store.table == old(store.table)
    {
      ghost var s := model;
      SinceBefore(config, startedAt, trace, model);
      inserted := InsertWithRetries(inserts, from, s, trace + InsertSteps(|batch|, clock, inserts, from));
      InsertOutcome(s, inserted, model);
    }

    /** Time passes while the records of the batch have their statements. */
    ghost method StepAttempt(n: nat, answer: InsertAnswer)
      requires Reached(config, startedAt, trace, model) && model.phase.Inserting? && n == |model.batch|
      requires model.phase.since <= model.now
      modifies this`model, this`trace
      ensures Reached(config, startedAt, trace, model)
      ensures trace == old(trace) + InsertStep(n, old(model).now, answer)
      ensures var s := old(model);
              var t := s.(now := Passed(s.now, answer.elapsed, n), flushLate := model.flushLate);
              model == CapturePipeline.InsertBatch(t, Succeeds(n, s.now, answer), Stamps(n, s.now, answer))
    {
      ghost var now := model.now;
      Step(Advance(Passed(now, answer.elapsed, n)));
      ghost var t := model;
      StepInsert(Succeeds(n, now, answer), Stamps(n, now, answer));
    }

    ghost method StepAttemptOf(s: State, attempt: nat, answer: InsertAnswer)
      requires Reached(config, startedAt, trace, model) && s.phase.Inserting? && attempt < MAX_RETRIES
      requires AtAttempt(s, attempt, model)
      modifies this`model, this`trace
      ensures Reached(config, startedAt, trace, model)
      ensures trace == old(trace) + InsertStep(|s.batch|, old(model).now, answer)
      ensures model.now == Passed(old(model).now, answer.elapsed, |s.batch|)
      ensures Succeeds(|s.batch|, old(model).now, answer) ==>
        Stored(s, model)
        && model.table == s.table + RowsFrom(Records(s.batch), Stamps(|s.batch|, old(model).now, answer), |s.log| + 1)
      ensures !Succeeds(|s.batch|, old(model).now, answer) ==>
        if attempt + 1 < MAX_RETRIES then AtAttempt(s, attempt + 1, model) else Dropped(s, model)
    {
      var t := model.(now := Passed(model.now, answer.elapsed, |s.batch|));
      var ok, times := Succeeds(|s.batch|, model.now, answer), Stamps(|s.batch|, model.now, answer);
      StepAttempt(|s.batch|, answer);
      InsertIs(s, attempt, t.(flushLate := model.flushLate), ok, times, model);
    }

    /** The transaction of one attempt; it fails when a record's time has no text. */
    method InsertStamped(answer: InsertAnswer) returns (inserted: bool)
      requires store.Valid()
      modifies store
      ensures inserted == Succeeds(|batch|, clock, answer)
      ensures inserted ==>
        store.table == old(store.table) + RowsFrom(batch, Stamps(|batch|, clock, answer), old(store.nextId))
      ensures inserted ==> store.nextId == old(store.nextId) + |batch|
      ensures !inserted ==> store.table == old(store.table) && store.nextId == old(store.nextId)
    {
      inserted := false;
      if TimesFit(|batch|, clock, answer) {
        inserted := store.InsertBatch(batch, Stamps(|batch|, clock, answer), answer.fault);
      }
    }

    method InsertOnce(ghost s: State, attempt: nat, answer: InsertAnswer) returns (inserted: bool)
      requires Reached(config, startedAt, trace, model) && s.phase.Inserting? && attempt < MAX_RETRIES
      requires AtAttempt(s, attempt, model) && batch == Records(s.batch) && clock == model.now
      requires store.table == s.table && store.nextId == |s.log| + 1
      modifies this`clock, this`model, this`trace, store
      ensures Reached(config, startedAt, trace, model)
      ensures inserted == Succeeds(|batch|, old(clock), answer)
      ensures trace == old(trace) + InsertStep(|batch|, old(clock), answer)
      ensures clock == model.now == Passed(old(clock), answer.elapsed, |batch|)
      ensures inserted ==> Stored(s, model) && model.table == store.table && store.nextId == old(store.nextId) + |batch|
      ensures !inserted ==> if attempt + 1 < MAX_RETRIES then AtAttempt(s, attempt + 1, model) else Dropped(s, model)
      ensures !inserted ==> store.table == old(store.table) && store.nextId == old(store.nextId)
    {
      ReachedStore(config, startedAt, trace, model, store);
      inserted := InsertStamped(answer);
      StepAttemptOf(s, attempt, answer);
      clock := Passed(clock, answer.elapsed, |batch|);
    }

    /** All attempts up to this one have failed; the steps of the remaining ones lead to `all`. */
    ghost predicate Trying(s: State, attempt: nat, inserts: nat -> InsertAnswer, all: seq<Label>)
      requires s.phase.Inserting? && attempt <= MAX_RETRIES
      reads this, store
    {
      && Reached(config, startedAt, trace, model) && clock == model.now && batch == Records(s.batch)
      && store.table == s.table && store.nextId == |s.log| + 1
      && (if attempt < MAX_RETRIES then AtAttempt(s, attempt, model) else Dropped(s, model))
      && trace + InsertSteps(|batch|, clock, inserts, attempt) == all
    }

    /** The batch is stored, after the steps `all`. */
    ghost predicate Done(s: State, all: seq<Label>)
      requires s.phase.Inserting?
      reads this, store
    {
      && Reached(config, startedAt, trace, model) && clock == model.now && trace == all
      && Stored(s, model) && store.table == model.table && store.nextId == |model.log| + 1
    }

    method InsertNext(ghost s: State, attempt: nat, inserts: nat -> InsertAnswer, ghost all: seq<Label>)
      returns (inserted: bool)
      requires s.phase.Inserting? && attempt < MAX_RETRIES && Trying(s, attempt, inserts, all)
      modifies this`clock, this`model, this`trace, store
      ensures if inserted then Done(s, all) else Trying(s, attempt + 1, inserts, all)
    {
      ghost var before, now := trace, clock;
      inserted := InsertOnce(s, attempt, inserts(attempt));
      InsertStepsNext(before, trace, |batch|, now, inserts, attempt);
    }

    /** Tries to insert the batch until that succeeds, from some attempt on, three times at most in all. */
    method InsertWithRetries(inserts: nat -> InsertAnswer, from: nat, ghost s: State, ghost all: seq<Label>)
      returns (inserted: bool)
      requires s.phase.Inserting? && from < MAX_RETRIES && Trying(s, from, inserts, all)
      modifies this`clock, this`model, this`trace, store
      ensures if inserted then Done(s, all) else Trying(s, MAX_RETRIES, inserts, all)
    {
      for attempt := from to MAX_RETRIES
        invariant Trying(s, attempt, inserts, all)
      {
        inserted := InsertNext(s, attempt, inserts, all);
        if inserted {
          return true;
        }
      }
      return false;
    }

    /**
     Closes the channel, lets the consumer finish and drain it, and closes the files. `at` is where the consumer stands:
     it may wait, have an entry in hand, or be in the middle of a flush.
     */
    method Close(at: Phase)
      requires Valid() && !closed && at == model.phase
      modifies this, writer.pool, writer.pool.files, store
      ensures Valid() && closed && model.phase.Closed?
      ensures entries == [] && batch == []
      ensures captureTotal == old(captureTotal) && dropped == old(dropped) && uncounted == old(uncounted)
      ensures captureTotal + uncounted == store.nextId - 1 + writeErrors + storeErrors
      ensures forall fd: nat :: fd in writer.pool.files.closed <==> fd < writer.pool.files.nextFd
      ensures Distinct(writer.pool.files.closed)
    {
      CloseEntries(at);
      Drain();
      CloseWriter();
    }

    /** Closes the channel; the consumer comes to the end of what it is at. */
    method CloseEntries(at: Phase)
      requires Valid() && !closed && at == model.phase
      modifies this`closed, this`batch, this`writeErrors, this`storeErrors, this`clock, this`model, this`trace
      modifies writer.pool, writer.pool.files, store
      ensures Valid() && closed && model.phase.Idle?
    {
      OpenGoesOn(config, startedAt, trace, model);
      Step(CloseChannel);
      closed := true;
      Resume(at);
    }

    /** The consumer comes to the end of what it is at. */
    method Resume(at: Phase)
      requires Valid() && at == model.phase && GoesOn(at)
      modifies this`batch, this`writeErrors, this`storeErrors, this`clock, this`model, this`trace
      modifies writer.pool, writer.pool.files, store
      ensures Valid() && model.phase.Idle?
    {
      match at
      case Idle =>
      case InHand(entry, _) =>
        var a: EntryAnswers := *;
        TakeAndFlush(entry, a);
      case Flushing(_) =>
        var a: FlushAnswers := *;
        Flush(a);
      case Inserting(attempt, _, _) =>
        var inserts: nat -> InsertAnswer := *;
        var inserted := InsertOrDrop(inserts, attempt);
    }

    /** What the consumer still does once the channel is closed. */
    method Drain()
      requires Valid() && closed && model.phase.Idle?
      modifies this, writer.pool, writer.pool.files, store
      ensures Valid() && closed && model.phase.Stopped?
      ensures captureTotal == old(captureTotal) && dropped == old(dropped) && uncounted == old(uncounted)
    {
      while |entries| > 0
        invariant Valid() && closed && model.phase.Idle?
        invariant captureTotal == old(captureTotal) && dropped == old(dropped) && uncounted == old(uncounted)
      {
        TakeTurn();
      }
      FlushLast();
    }

    method PerhapsTick()
      requires Valid() && model.phase.Idle?
      modifies this`batch, this`storeErrors, this`clock, this`model, this`trace, writer.pool.files`disk, store
      ensures Valid() && model.phase.Idle?
    {
      var ticks: bool := *;
      if ticks {
        var a: FlushAnswers := *;
        OnTick(a);
      }
    }

    /** One entry, perhaps after a tick. */
    method TakeTurn()
      requires Valid() && model.phase.Idle? && entries != []
      modifies this, writer.pool, writer.pool.files, store
      ensures Valid() && model.phase.Idle? && entries == old(entries)[1..] && closed == old(closed)
      ensures captureTotal == old(captureTotal) && dropped == old(dropped) && uncounted == old(uncounted)
    {
      PerhapsTick();
      var a: EntryAnswers := *;
      ghost var taken := ProcessEntry(a);
    }

    /** The channel is closed and empty: what is batched is flushed, and the consumer stops. */
    method FlushLast()
      requires Valid() && closed && model.phase.Idle? && entries == []
      modifies this`batch, this`storeErrors, this`clock, this`model, this`trace, writer.pool.files`disk, store
      ensures Valid() && model.phase.Stopped?
    {
      Step(ReceiveClosed);
      if |batch| > 0 {
        var a: FlushAnswers := *;
        Flush(a);
      }
    }

    method CloseWriter()
      requires Valid() && model.phase.Stopped?
      modifies this`model, this`trace, writer.pool, writer.pool.files
      ensures Valid() && model.phase.Closed? && entries == [] && batch == []
      ensures captureTotal + uncounted == store.nextId - 1 + writeErrors + storeErrors
      ensures forall fd: nat :: fd in writer.pool.files.closed <==> fd < writer.pool.files.nextFd
      ensures Distinct(writer.pool.files.closed)
    {
      var failing: set<nat> := *;
      writer.pool.CloseAll(failing);
      Step(CloseFiles(failing));
      GracefulDrain(config, startedAt, trace, model);
      ClosedCounts(config, startedAt, trace, model);
    }
  }

  /** The rows of a reached state are ordered, so the store may take more. */
  lemma {:induction false} ReachedStore(c: Config, start: nat, run: seq<Label>, t: State, store: Store)
    requires Reached(c, start, run, t) && store.table == t.table && store.nextId == |t.log| + 1
    ensures store.Valid()
  {
    ReachedInv(c, start, run, t);
  }

  lemma {:induction false} SinceBefore(c: Config, start: nat, run: seq<Label>, t: State)
    requires Reached(c, start, run, t)
    ensures t.phase.Inserting? ==> t.phase.since <= t.now
  {
    ReachedInv(c, start, run, t);
  }

  /** Before the channel is closed the consumer is not at its last flush, and has not stopped. */
  lemma {:induction false} OpenGoesOn(c: Config, start: nat, run: seq<Label>, t: State)
    requires Reached(c, start, run, t) && !t.closing
    ensures GoesOn(t.phase)
  {
    ReachedInv(c, start, run, t);
  }

  lemma {:induction false} ClosedCounts(c: Config, start: nat, run: seq<Label>, t: State)
    requires Reached(c, start, run, t)
    ensures |t.accepted| == t.captureTotal + t.uncounted
  {
    ReachedInv(c, start, run, t);
  }
}
