/** Runs of the capture pipeline that show where it departs from what its interface suggests. */
module CaptureScenarios {
  import opened Json
  import opened Calendar
  import opened CaptureEntry
  import opened CaptureStore
  import opened CaptureDisk
  import opened CaptureWriter
  import opened CapturePaging
  import opened CaptureExport
  import opened Projects
  import opened CapturePipeline
  import opened PipelineGuarantees
  import opened PipelineRetention
  import opened CaptureReader

  /** The consumer waits, and nothing waits for it. */
  predicate AtRest(s: State) {
    s.phase.Idle? && s.queue == [] && s.batch == [] && !s.closing
  }

  /** No fault has come up, and no cleanup and no change of a project. */
  predicate NothingElse(s: State, t: State) {
    && t.syncFailed == s.syncFailed && t.countFailed == s.countFailed && t.flushLate == s.flushLate
    && t.cleaner == s.cleaner && t.projects == s.projects && t.listed == s.listed
  }

  // One entry on its way through the pipeline

  lemma {:induction false} ReceiveOne(c: Config, start: Origin, run0: seq<Label>, s0: State, e: Entry, written: nat)
    returns (run: seq<Label>, s: State)
    requires On(c, true, start, run0, s0) && AtRest(s0) && s0.now <= written
    ensures On(c, true, start, run, s) && s.phase == InHand(e, |s0.accepted|) && s.now == written
    ensures s.accepted == s0.accepted + [e] && s.queue == [] && s.batch == [] && !s.closing
    ensures s.table == s0.table && s.log == s0.log && s.disk == s0.disk && NothingElse(s0, s)
  {
    OnInv(c, true, start, run0, s0);
    assert s0.received == |s0.accepted|;
    run, s := SubmitOne(c, start, run0, s0, e, written);
    run, s := Take(c, true, start, run, s, Receive);
  }

  lemma {:induction false} SubmitOne(c: Config, start: Origin, run0: seq<Label>, s0: State, e: Entry, written: nat)
    returns (run: seq<Label>, s: State)
    requires On(c, true, start, run0, s0) && AtRest(s0) && s0.now <= written
    ensures On(c, true, start, run, s) && s.now == written && s.queue == [e] && s.accepted == s0.accepted + [e]
    ensures s.phase.Idle? && s.batch == [] && !s.closing && s.received == s0.received
    ensures s.table == s0.table && s.log == s0.log && s.disk == s0.disk && NothingElse(s0, s)
  {
    OnInv(c, true, start, run0, s0);
    run, s := Take(c, true, start, run0, s0, Advance(written));
    run, s := Take(c, true, start, run, s, Submit(e));
  }

  lemma {:induction false} WriteOne(c: Config, start: Origin, run0: seq<Label>, s0: State, e: Entry, src: nat)
    returns (run: seq<Label>, s: State, item: Item)
    requires On(c, true, start, run0, s0) && s0.phase == InHand(e, src) && !e.bodySkipped && s0.batch == []
    ensures On(c, true, start, run, s) && s.phase in {Idle, Flushing(false)} && s.now == s0.now
    ensures s.batch == [item] && item.src == src && item.writtenAt == s0.now
    ensures item.rec.filePath == Some(BuildRelPath(e.projectId, s0.now, c.offset)) && item.rec.projectId == e.projectId
    ensures item.line == MarshalJsonl(c.codec, e, c.stamp(s0.now))
    ensures item.rec.filePath.value in s.disk.names && forall p :: p in s0.disk.names ==> p in s.disk.names
    ensures s.accepted == s0.accepted && s.queue == s0.queue && s.closing == s0.closing
    ensures s.table == s0.table && s.log == s0.log && NothingElse(s0, s)
  {
    var path, line := BuildRelPath(e.projectId, s0.now, c.offset), MarshalJsonl(c.codec, e, c.stamp(s0.now));
    var w := Write(s0.pool, s0.disk, path, line, s0.now, NoFault, true);
    OnInv(c, true, start, run0, s0);
    FaultlessWrite(s0.pool, s0.disk, path, line, s0.now, c.offset, w);
    run, s := Take(c, true, start, run0, s0, TakeWritten(NoFault, true));
    item := Item(WrittenRecord(e, w.place.value), src, line, s0.now);
    assert s == AfterWrite(c, s0, line, w);
  }

  /** The batch is flushed within the hour, and inserted at once. */
  lemma {:induction false} FlushOne(c: Config, start: Origin, run0: seq<Label>, s0: State, item: Item,
                                    inserted: Instant)
    returns (run: seq<Label>, s: State)
    requires On(c, true, start, run0, s0) && s0.phase in {Idle, Flushing(false)} && s0.batch == [item]
    requires s0.now <= inserted < item.writtenAt + HOUR
    ensures On(c, true, start, run, s) && s.phase.Idle? && s.batch == [] && s.now == inserted
    ensures s.table == s0.table + [Row(|s0.log| + 1, item.rec, inserted)] && s.log == s0.log + [item]
    ensures s.disk.names == s0.disk.names
    ensures s.accepted == s0.accepted && s.queue == s0.queue && s.closing == s0.closing
    ensures NothingElse(s0, s)
  {
    run, s := WaitToFlush(c, start, run0, s0, item, inserted);
    run, s := SyncFirst(c, true, start, run, s);
    run, s := InsertOne(c, start, run, s, item, inserted);
  }

  lemma {:induction false} WaitToFlush(c: Config, start: Origin, run0: seq<Label>, s0: State, item: Item, inserted: nat)
    returns (run: seq<Label>, s: State)
    requires On(c, true, start, run0, s0) && s0.phase in {Idle, Flushing(false)} && s0.batch == [item]
    requires s0.now <= inserted < item.writtenAt + HOUR
    ensures On(c, true, start, run, s) && s == s0.(phase := Flushing(false), now := inserted)
  {
    run, s := Take(c, true, start, run0, s0, Advance(inserted));
    assert !SomeLate(s0.batch, inserted);
    if s.phase.Idle? {
      run, s := Take(c, true, start, run, s, Tick);
    }
  }

  lemma {:induction false} InsertOne(c: Config, start: Origin, run0: seq<Label>, s0: State, item: Item, time: Instant)
    returns (run: seq<Label>, s: State)
    requires On(c, true, start, run0, s0) && s0.phase == Inserting(0, false, time) && s0.batch == [item]
    requires s0.now == time
    ensures On(c, true, start, run, s)
    ensures s == s0.(table := s0.table + [Row(|s0.log| + 1, item.rec, time)], log := s0.log + [item], batch := [],
                     phase := Idle)
  {
    assert Records(s0.batch) == [item.rec];
    assert RowsFrom([item.rec], [time], |s0.log| + 1) == [Row(|s0.log| + 1, item.rec, time)];
    run, s := Take(c, true, start, run0, s0, Insert(true, [time]));
  }

  /** An entry is submitted, written at one time and stored at another less than an hour later. */
  lemma {:induction false} StoreEntry(c: Config, start: Origin, run0: seq<Label>, s0: State, e: Entry, written: nat,
                                      inserted: Instant)
    returns (run: seq<Label>, s: State, item: Item)
    requires On(c, true, start, run0, s0) && AtRest(s0) && !e.bodySkipped
    requires s0.now <= written <= inserted < written + HOUR
    ensures On(c, true, start, run, s) && AtRest(s) && s.now == inserted
    ensures s.table == s0.table + [Row(|s0.log| + 1, item.rec, inserted)] && s.log == s0.log + [item]
    ensures s.accepted == s0.accepted + [e] && item.src == |s0.accepted|
    ensures item.rec.filePath == Some(BuildRelPath(e.projectId, written, c.offset)) && item.rec.projectId == e.projectId
    ensures item.line == MarshalJsonl(c.codec, e, c.stamp(written))
    ensures item.rec.filePath.value in s.disk.names && forall p :: p in s0.disk.names ==> p in s.disk.names
    ensures NothingElse(s0, s)
  {
    run, s := ReceiveOne(c, start, run0, s0, e, written);
    run, s, item := WriteOne(c, start, run, s, e, |s0.accepted|);
    run, s := FlushOne(c, start, run, s, item, inserted);
  }

  // The cleaner

  /** Project 1 with a day of retention, and no other. */
  predicate OneProject(s: State) {
    s.projects == [Some(1)] && s.listed == []
  }

  lemma {:induction false} ListOne()
    ensures Listed([Some(1)]) == [Listing(1, 1)] && Shift(1) + DAY == 0
  {
    assert [Some(1)][..0] == [];
    ShiftIsDays(1);
  }

  /** A cleanup lists the project, its records of a day ago expire, and their paths come to the cleaner. */
  lemma {:induction false} ExpireRecords(c: Config, start: Origin, run0: seq<Label>, s0: State, before: Instant)
    returns (run: seq<Label>, s: State)
    requires On(c, true, start, run0, s0) && BetweenProjects(s0.cleaner) && OneProject(s0) && before + DAY == s0.now
    ensures On(c, true, start, run, s)
    ensures s == s0.(table := Kept(s0.table, 1, before), cleaner := Checking(1, ExpiredPaths(s0.table, 1, before)))
  {
    ListOne();
    run, s := Take(c, true, start, run0, s0, CleanList);
    run, s := SelectBefore(c, start, run, s, before);
    run, s := Take(c, true, start, run, s, CleanDelete(true));
  }

  lemma {:induction false} SelectBefore(c: Config, start: Origin, run0: seq<Label>, s0: State, before: Instant)
    returns (run: seq<Label>, s: State)
    requires On(c, true, start, run0, s0) && BetweenProjects(s0.cleaner) && s0.listed == [Listing(1, 1)]
    requires before + DAY == s0.now
    ensures On(c, true, start, run, s)
    ensures s == s0.(listed := [], cleaner := Selected(1, before, ExpiredPaths(s0.table, 1, before)))
  {
    ListOne();
    assert Representable(before) && NextCutoff(s0) == Some(before);
    run, s := Take(c, true, start, run0, s0, CleanSelect(true));
    assert s == SelectExpired(s0, before);
  }

  /** Of two records the first expires. */
  lemma {:induction false} FirstExpires(a: Row, b: Row, project: int, before: Instant)
    requires a.rec.projectId == b.rec.projectId == project
    requires a.createdAt / DAY <= before / DAY < b.createdAt / DAY
    ensures Kept([a, b], project, before) == [b]
    ensures ExpiredPaths([a, b], project, before) == [a.rec.filePath]
  {
    TextComparesDays(a.createdAt, before);
    TextComparesDays(b.createdAt, before);
    assert [a, b][1..] == [b] && [b][1..] == [] && [a, b][..1] == [a] && [a][..0] == [];
    assert Kept([b], project, before) == [b] + Kept([], project, before);
    assert ExpiredPaths([a], project, before) == [a.rec.filePath];
  }

  lemma {:induction false} OneExpires(row: Row, before: Instant)
    requires row.createdAt / DAY <= before / DAY
    ensures Kept([row], row.rec.projectId, before) == []
    ensures ExpiredPaths([row], row.rec.projectId, before) == [row.rec.filePath]
  {
    TextComparesDays(row.createdAt, before);
    assert [row][1..] == [] && [row][..0] == [];
  }

  /** The cleaner finds the only file of its list aged and counts the project's records. */
  lemma {:induction false} CountForOnly(c: Config, start: Origin, run0: seq<Label>, s0: State, path: RelPath)
    returns (run: seq<Label>, s: State)
    requires On(c, true, start, run0, s0) && s0.cleaner.Checking? && s0.cleaner.todo == [Some(path)]
    requires path in s0.disk.names && (path.hour + 2) * HOUR <= s0.now + c.offset
    ensures On(c, true, start, run, s) && s == s0.(cleaner := Aged(s0.cleaner.project, Some(path), []))
  {
    OnInv(c, true, start, run0, s0);
    assert [Some(path)][1..] == [];
    run, s := Take(c, true, start, run0, s0, CleanStat(true));
  }

  lemma {:induction false} EarlyInstants()
    ensures forall t: nat :: t / DAY <= 4 ==> Representable(t)
  {
    assert DateOf(0) == Date(0, 1, 1) && DateOf(1) == Date(0, 1, 2) && DateOf(2) == Date(0, 1, 3);
    assert DateOf(3) == Date(0, 1, 4) && DateOf(4) == Date(0, 1, 5);
  }

  // The scenarios

  lemma {:induction false} ReachedFromStart(c: Config, ok: bool, run: seq<Label>, s: State)
    requires On(c, ok, Origin(0, []), run, s)
    ensures Reached(c, 0, run, s)
  {
    var none: seq<Label> := [];
    assert none + run == run;
  }

  /** The system with its first project, which keeps records for a day. */
  lemma {:induction false} Begin(c: Config) returns (run: seq<Label>, s: State)
    requires ConfigOk(c)
    ensures On(c, true, Origin(0, []), run, s) && s == Initial(c, 0).(projects := [Some(1)])
  {
    var none: seq<Label> := [];
    assert none + none == none;
    run, s := Take(c, true, Origin(0, []), none, Initial(c, 0), CreateProject(1));
  }

  lemma {:induction false} StoreOne(c: Config, e: Entry, written: nat, time: Instant)
    returns (run: seq<Label>, s: State, row: Row)
    requires ConfigOk(c) && !e.bodySkipped && written <= time < written + HOUR
    ensures On(c, true, Origin(0, []), run, s) && AtRest(s) && OneProject(s) && s.cleaner == Resting && s.now == time
    ensures Trusted(s) && !s.syncFailed
    ensures s.table == [row] && row.createdAt == time && row.rec.projectId == e.projectId && |s.log| == row.id == 1
    ensures row.rec.filePath == Some(BuildRelPath(e.projectId, written, c.offset))
    ensures row.rec.filePath.value in s.disk.names && s.log[0].line == MarshalJsonl(c.codec, e, c.stamp(written))
  {
    var item;
    run, s := Begin(c);
    run, s, item := StoreEntry(c, Origin(0, []), run, s, e, written, time);
    row := Row(1, item.rec, time);
  }

  /** Two entries of one project, one after the other. */
  lemma {:induction false} StoreTwo(c: Config, e1: Entry, written1: nat, time1: Instant, e2: Entry, written2: nat,
                                    time2: Instant)
    returns (run: seq<Label>, s: State, first: Row, second: Row)
    requires ConfigOk(c) && !e1.bodySkipped && !e2.bodySkipped && e1.projectId == e2.projectId
    requires written1 <= time1 < written1 + HOUR && time1 <= written2 <= time2 < written2 + HOUR
    ensures On(c, true, Origin(0, []), run, s) && AtRest(s) && OneProject(s) && s.cleaner == Resting && s.now == time2
    ensures Trusted(s) && !s.syncFailed
    ensures s.table == [first, second] && first.createdAt == time1 && second.createdAt == time2
    ensures first.rec.projectId == second.rec.projectId == e1.projectId
    ensures first.rec.filePath == Some(BuildRelPath(e1.projectId, written1, c.offset))
    ensures second.rec.filePath == Some(BuildRelPath(e1.projectId, written2, c.offset))
    ensures first.rec.filePath.value in s.disk.names && second.rec.filePath.value in s.disk.names
  {
    run, s, first := StoreOne(c, e1, written1, time1);
    var item;
    run, s, item := StoreEntry(c, Origin(0, []), run, s, e2, written2, time2);
    second := Row(2, item.rec, time2);
    assert s.table == [first, second];
  }

  /** A day after the first of two records it expires, and its file is aged. */
  lemma {:induction false} FirstAged(c: Config, start: Origin, run0: seq<Label>, s0: State, first: Row, second: Row,
                                     before: Instant)
    returns (run: seq<Label>, s: State)
    requires On(c, true, start, run0, s0) && OneProject(s0) && s0.cleaner == Resting && s0.table == [first, second]
    requires first.rec.projectId == second.rec.projectId == 1 && first.rec.filePath != None
    requires first.createdAt / DAY <= before / DAY < second.createdAt / DAY && s0.now <= before + DAY && s0.batch == []
    requires first.rec.filePath.value in s0.disk.names
    requires (first.rec.filePath.value.hour + 2) * HOUR <= before + DAY + c.offset
    ensures On(c, true, start, run, s)
    ensures s == s0.(table := [second], now := before + DAY, cleaner := Aged(1, first.rec.filePath, []))
  {
    FirstExpires(first, second, 1, before);
    run, s := Take(c, true, start, run0, s0, Advance(before + DAY));
    run, s := ExpireRecords(c, start, run, s, before);
    run, s := CountForOnly(c, start, run, s, first.rec.filePath.value);
  }

  lemma {:induction false} CountAndDrop(c: Config, start: Origin, run0: seq<Label>, s0: State, row: Row)
    returns (run: seq<Label>, s: State)
    requires On(c, true, start, run0, s0) && s0.table == [row] && s0.cleaner.Aged?
    requires row.rec.projectId == s0.cleaner.project
    ensures On(c, true, start, run, s)
    ensures s == s0.(cleaner := Checking(s0.cleaner.project, s0.cleaner.todo))
  {
    CountIsRows([row], row.rec.projectId);
    assert [row][0].rec.projectId == row.rec.projectId;
    run, s := Take(c, true, start, run0, s0, CleanCount(true));
  }

  /** The last record of the index expires, when the cleaner is about to count for another file of its project. */
  lemma {:induction false} DropAndExpire(c: Config, start: Origin, run0: seq<Label>, s0: State, row: Row,
                                         before: Instant)
    returns (run: seq<Label>, s: State)
    requires On(c, true, start, run0, s0) && OneProject(s0) && s0.table == [row] && s0.batch == []
    requires s0.cleaner.Aged? && s0.cleaner.project == row.rec.projectId == 1 && s0.cleaner.todo == []
    requires row.createdAt / DAY <= before / DAY && s0.now <= before + DAY
    ensures On(c, true, start, run, s)
    ensures s == s0.(table := [], now := before + DAY, cleaner := Checking(1, [row.rec.filePath]))
  {
    OneExpires(row, before);
    run, s := CountAndDrop(c, start, run0, s0, row);
    run, s := Take(c, true, start, run, s, Advance(before + DAY));
    run, s := ExpireRecords(c, start, run, s, before);
  }

  /**
   A file outlives the retention without any fault: with a day of retention, entries of two hours two days apart are
   captured; the first record expires while the second is still there; two days later that one expires as well. No
   record of the project is left, its retention is still a day, and the first file stays in every later run.
   */
  lemma {:induction false} FileOutlivesRetention(c: Config, e1: Entry, e2: Entry)
    returns (run: seq<Label>, t: State, path: RelPath)
    requires ConfigOk(c) && !e1.bodySkipped && !e2.bodySkipped && e1.projectId == e2.projectId == 1
    ensures Reached(c, 0, run, t) && Answered(run) && Trusted(t) && !t.syncFailed && t.table == [] && t.now == 4 * DAY
    ensures t.projects == [Some(1)] && path == BuildRelPath(1, 0, c.offset)
    ensures forall later, u :: Steps(c, t, later, u) ==> path in u.disk.names
  {
    EarlyInstants();
    var start, first, second := Origin(0, []), Row(0, SkippedRecord(e1), 0), Row(0, SkippedRecord(e2), 0);
    path := BuildRelPath(1, 0, c.offset);
    assert Representable(DAY) && Representable(2 * DAY) && Representable(3 * DAY);
    assert (path.hour + 2) * HOUR <= 2 * DAY + c.offset && path.hour < HourOf(2 * DAY, c.offset);
    run, t, first, second := StoreTwo(c, e1, 0, 0, e2, 2 * DAY, 2 * DAY);
    run, t := FirstAged(c, start, run, t, first, second, DAY);
    run, t := DropAndExpire(c, start, run, t, second, 3 * DAY);
    ReachedFromStart(c, true, run, t);
    StrandedAtEnd(c, start, run, t, path);
  }

  lemma {:induction false} StrandedAtEnd(c: Config, start: Origin, run: seq<Label>, t: State, path: RelPath)
    requires On(c, true, start, run, t) && t.table == [] && t.batch == [] && path in t.disk.names
    requires !InCleaner(t, path) && path.hour < HourOf(t.now, c.offset)
    ensures forall later, u :: Steps(c, t, later, u) ==> path in u.disk.names
  {
    assert Stranded(c, t, path);
    StaysIffStranded(c, start.begin, start.before + run, t, path);
  }

  /**
   A deleted project's records and files stay for ever: with a day of retention an entry is captured, and the project is
   deleted before a cleanup comes to it.
   */
  lemma {:induction false} DeletedProjectStays(c: Config, e: Entry)
    returns (run: seq<Label>, t: State, row: Row, path: RelPath)
    requires ConfigOk(c) && !e.bodySkipped && e.projectId == 1
    ensures Reached(c, 0, run, t) && Answered(run) && Trusted(t) && !t.syncFailed
    ensures t.table == [row] && row.createdAt == 0 && row.rec.filePath == Some(path) && path in t.disk.names
    ensures forall later, u :: Steps(c, t, later, u) ==> row in u.table && path in u.disk.names
  {
    var start, first := Origin(0, []), Row(0, SkippedRecord(e), 0);
    run, t, row := StoreOne(c, e, 0, 0);
    path := row.rec.filePath.value;
    run, t := Take(c, true, start, run, t, DeleteProject(1));
    ReachedFromStart(c, true, run, t);
    assert Stranded(c, t, path) && KeptForGood(t, row);
    StaysIffStranded(c, 0, run, t, path);
    assert row in t.table;
    RecordStaysIff(c, 0, run, t, row);
  }

  /**
   An unanswered count query removes the file of a stored record: two entries of the last two seconds of a day go to
   one file, the second is stored a second after midnight; with a day of retention the first expires a day before it.
   */
  lemma {:induction false} UnansweredCountDangles(c: Config, e1: Entry, e2: Entry)
    returns (run: seq<Label>, t: State, path: RelPath)
    requires ConfigOk(c) && c.offset == 0 && !e1.bodySkipped && !e2.bodySkipped && e1.projectId == e2.projectId == 1
    ensures Reached(c, 0, run, t) && !t.flushLate && !t.syncFailed && t.projects == [Some(1)]
    ensures |t.table| == 1 && t.table[0].rec.filePath == Some(path) && path !in t.disk.names
  {
    EarlyInstants();
    var start, first, second := Origin(0, []), Row(0, SkippedRecord(e1), 0), Row(0, SkippedRecord(e2), 0);
    path := BuildRelPath(1, DAY - 2, c.offset);
    assert Representable(DAY - 2) && Representable(DAY - 1) && Representable(DAY + 1);
    assert BuildRelPath(1, DAY - 1, c.offset) == path;
    run, t, first, second := StoreTwo(c, e1, DAY - 2, DAY - 2, e2, DAY - 1, DAY + 1);
    run, t := FirstAged(c, start, run, t, first, second, DAY - 1);
    run, t := CountUnanswered(c, start, run, t, path);
    ReachedFromStart(c, false, run, t);
  }

  lemma {:induction false} CountUnanswered(c: Config, start: Origin, run0: seq<Label>, s0: State, path: RelPath)
    returns (run: seq<Label>, s: State)
    requires On(c, true, start, run0, s0) && s0.cleaner.Aged? && s0.cleaner.path == Some(path)
    ensures On(c, false, start, run, s) && path !in s.disk.names && s.projects == s0.projects
    ensures s.table == s0.table && s.flushLate == s0.flushLate && s.syncFailed == s0.syncFailed
  {
    assert On(c, false, start, run0, s0);
    run, s := Take(c, false, start, run0, s0, CleanCount(false));
    run, s := Take(c, false, start, run, s, CleanRemove(true));
  }

  /** A stored record whose line is too long for the reader keeps every download over it going for ever. */
  lemma {:induction false} LongLineNeverEnds(c: Config, e: Entry, pageSize: nat, openai: bool)
    returns (run: seq<Label>, t: State)
    requires ConfigOk(c) && !e.bodySkipped && |MarshalJsonl(c.codec, e, c.stamp(0))| >= MAX_LINE && pageSize > 0
    ensures Reached(c, 0, run, t) && Trusted(t) && |t.table| == 1
    ensures forall rounds :: Left(Beyond(t.table, e.projectId, 0, NO_FILTER), pageSize,
                                  ExportReader(c.codec, t.disk, openai), rounds) != []
  {
    var row := Row(0, SkippedRecord(e), 0);
    run, t, row := StoreOne(c, e, 0, 0);
    ReachedFromStart(c, true, run, t);
    LongLineStays(c, run, t, row, pageSize, openai);
  }

  lemma {:induction false} LongLineStays(c: Config, run: seq<Label>, t: State, row: Row, pageSize: nat, openai: bool)
    requires Reached(c, 0, run, t) && Trusted(t) && t.table == [row] && 0 < row.id <= |t.log| && TooLong(t, row)
    requires pageSize > 0
    ensures forall rounds :: Left(Beyond(t.table, row.rec.projectId, 0, NO_FILTER), pageSize,
                                  ExportReader(c.codec, t.disk, openai), rounds) != []
  {
    var rows, read := Beyond(t.table, row.rec.projectId, 0, NO_FILTER), ExportReader(c.codec, t.disk, openai);
    UnreadableIff(c, 0, run, t, 0, openai);
    OnlyRow(row);
    forall rounds
      ensures Left(rows, pageSize, read, rounds) != []
    {
      UnreadableTailNeverEnds(rows, pageSize, read, rounds);
    }
  }
}
