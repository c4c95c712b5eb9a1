/** Durability of indexed lines, safety of the cleaner, and what both mean for every run. */
module PipelineGuarantees {
  import opened Lines
  import opened Json
  import opened Calendar
  import opened CaptureEntry
  import opened CaptureStore
  import opened CaptureDisk
  import opened FilePool
  import opened CaptureWriter
  import opened CapturePipeline
  import opened PipelineFlow
  import opened PipelineFiles

  // Durability

  /** An item counts while its file has a name. */
  predicate Present(d: Disk, it: Item) {
    HasPath(it) && PathOf(it) in d.names
  }

  predicate LogSynced(s: State) {
    forall i :: 0 <= i < |s.log| && Present(s.disk, s.log[i]) ==> SyncedTo(s.disk, PathOf(s.log[i]), End(s.log[i]))
  }

  /** Batched lines are on disk or in a file the pool holds open; once the pool is synced they are on disk. */
  predicate BatchCovered(s: State) {
    forall k :: 0 <= k < |s.batch| && Present(s.disk, s.batch[k]) ==>
      Covered(s.pool.order, s.disk, PathOf(s.batch[k]), End(s.batch[k]))
      && (s.phase.Inserting? ==> SyncedTo(s.disk, PathOf(s.batch[k]), End(s.batch[k])))
  }

  predicate SyncInv(s: State) {
    !s.syncFailed ==> LogSynced(s) && BatchCovered(s)
  }

  /** A file that appears in the current hour is not that of an item that had lost its file. */
  lemma {:induction false} PresentBefore(c: Config, s: State, e: Disk, path: RelPath, i: nat)
    requires FilesInv(c, s) && NewOnly(s.disk, e, path) && path.hour == HourOf(s.now, c.offset)
    requires i < |Items(s)| && Present(e, Items(s)[i])
    ensures Present(s.disk, Items(s)[i])
  {
    assert OldIfGone(c, s, PathOf(Items(s)[i]));
  }

  lemma {:induction false} LogSyncedGrows(c: Config, s: State, path: RelPath, t: State)
    requires FilesInv(c, s) && LogSynced(s) && Grows(s.disk, t.disk) && t.log == s.log
    requires NewOnly(s.disk, t.disk, path) && path.hour == HourOf(s.now, c.offset)
    ensures LogSynced(t)
  {
    forall i | 0 <= i < |t.log| && Present(t.disk, t.log[i])
      ensures SyncedTo(t.disk, PathOf(t.log[i]), End(t.log[i]))
    {
      assert Items(s)[i] == s.log[i];
      PresentBefore(c, s, t.disk, path, i);
      SyncedGrows(s.disk, t.disk, PathOf(t.log[i]), End(t.log[i]));
    }
  }

  lemma {:induction false} WrittenSync(c: Config, s: State, fault: Fault, syncs: bool, t: State)
    requires FilesInv(c, s) && SyncInv(s) && IsWrite(c, s, fault, syncs, t)
    ensures SyncInv(t)
  {
    var e := s.phase.entry;
    var path, line := BuildRelPath(e.projectId, s.now, c.offset), MarshalJsonl(c.codec, e, c.stamp(s.now));
    var w := Write(s.pool, s.disk, path, line, s.now, fault, syncs);
    if !s.syncFailed && !w.lost {
      WriteFiles(s.pool, s.disk, path, line, s.now, c.offset, fault, syncs, w);
      WriteBatch(c, s, path, line, fault, syncs, w);
      LogSyncedGrows(c, s, path, s.(disk := w.disk));
      AfterWriteSync(c, s, line, w, t);
    }
  }

  /** What a write leaves covered: the batched lines, and the one it has written. */
  lemma {:induction false} WriteBatch(c: Config, s: State, path: RelPath, line: Bytes, fault: Fault, syncs: bool,
                                      w: WriteResult)
    requires FilesInv(c, s) && BatchCovered(s) && path.hour == HourOf(s.now, c.offset)
    requires w == Write(s.pool, s.disk, path, line, s.now, fault, syncs) && !w.lost
    requires NewOnly(s.disk, w.disk, path)
    ensures forall k :: 0 <= k < |s.batch| && Present(w.disk, s.batch[k]) ==>
              Covered(w.pool.order, w.disk, PathOf(s.batch[k]), End(s.batch[k]))
    ensures w.place != None ==> Covered(w.pool.order, w.disk, w.place.value.path, w.place.value.offset + |line| + 1)
  {
    forall k | 0 <= k < |s.batch| && Present(w.disk, s.batch[k])
      ensures Covered(w.pool.order, w.disk, PathOf(s.batch[k]), End(s.batch[k]))
    {
      assert Items(s)[|s.log| + k] == s.batch[k];
      PresentBefore(c, s, w.disk, path, |s.log| + k);
      WriteCovers(s.pool, s.disk, path, line, s.now, c.offset, fault, syncs, w, PathOf(s.batch[k]), End(s.batch[k]));
    }
    if w.place != None {
      PlaceIsPath(s.pool, s.disk, path, line, s.now, fault, syncs, w);
      WrittenIsCovered(s.pool, s.disk, path, line, s.now, c.offset, fault, syncs, w);
    }
  }

  lemma {:induction false} AfterWriteSync(c: Config, s: State, line: Bytes, w: WriteResult, t: State)
    requires s.phase.InHand? && t == AfterWrite(c, s, line, w)
    requires LogSynced(s.(disk := w.disk))
    requires forall k :: 0 <= k < |s.batch| && Present(w.disk, s.batch[k]) ==>
               Covered(w.pool.order, w.disk, PathOf(s.batch[k]), End(s.batch[k]))
    requires w.place != None ==>
               Covered(w.pool.order, w.disk, w.place.value.path, w.place.value.offset + |line| + 1)
    ensures LogSynced(t) && BatchCovered(t)
  {
    assert LogSynced(t) by {
      assert t.log == s.log && t.disk == w.disk;
    }
  }

  lemma {:induction false} SyncPoolSync(c: Config, s: State, failing: set<nat>, t: State)
    requires FilesInv(c, s) && SyncInv(s) && IsStep(c, s, SyncPool(failing), t)
    ensures SyncInv(t)
  {
    if !t.syncFailed {
      SyncedOk(s.pool, s.disk, failing, s.now, c.offset, t.disk);
      LogSyncedGrows(c, s, RelPath(0, HourOf(s.now, c.offset)), t);
      assert NoneFails(s.pool.order, failing);
      forall k | 0 <= k < |t.batch| && Present(t.disk, t.batch[k])
        ensures SyncedTo(t.disk, PathOf(t.batch[k]), End(t.batch[k]))
      {
        assert Present(s.disk, s.batch[k]);
        SyncCovers(s.disk, s.pool.order, failing, PathOf(s.batch[k]), End(s.batch[k]));
      }
      SyncedIsCovered(c, t);
    }
  }

  lemma {:induction false} SyncedIsCovered(c: Config, t: State)
    requires Sound(t.disk)
    requires forall k :: 0 <= k < |t.batch| && Present(t.disk, t.batch[k]) ==>
               SyncedTo(t.disk, PathOf(t.batch[k]), End(t.batch[k]))
    ensures BatchCovered(t)
  {
  }

  lemma {:induction false} CloseFilesSync(c: Config, s: State, failing: set<nat>, t: State)
    requires FilesInv(c, s) && FlowOk(c, s) && SyncInv(s)
    requires IsStep(c, s, CloseFiles(failing), t)
    ensures SyncInv(t)
  {
    if !t.syncFailed {
      SyncedOk(s.pool, s.disk, failing, s.now, c.offset, t.disk);
      LogSyncedGrows(c, s, RelPath(0, HourOf(s.now, c.offset)), t);
      assert t.batch == [];
    }
  }

  /** An insert moves synced lines into the log, or changes nothing, or drops the batch. */
  lemma {:induction false} InsertSync(c: Config, s: State, ok: bool, times: seq<Instant>, t: State)
    requires SyncInv(s) && IsInsert(s, ok, times, t)
    ensures SyncInv(t)
  {
    if !t.syncFailed && ok {
      forall i | 0 <= i < |t.log| && Present(t.disk, t.log[i])
        ensures SyncedTo(t.disk, PathOf(t.log[i]), End(t.log[i]))
      {
        if i >= |s.log| {
          assert t.log[i] == s.batch[i - |s.log|];
        }
      }
    }
  }

  lemma {:induction false} RemoveSync(c: Config, s: State, removes: bool, t: State)
    requires SyncInv(s) && IsStep(c, s, CleanRemove(removes), t)
    ensures SyncInv(t)
  {
    if !t.syncFailed {
      forall i | 0 <= i < |t.log| && Present(t.disk, t.log[i])
        ensures SyncedTo(t.disk, PathOf(t.log[i]), End(t.log[i]))
      {
        assert Present(s.disk, s.log[i]);
      }
      forall k | 0 <= k < |t.batch| && Present(t.disk, t.batch[k])
        ensures Covered(t.pool.order, t.disk, PathOf(t.batch[k]), End(t.batch[k]))
        ensures t.phase.Inserting? ==> SyncedTo(t.disk, PathOf(t.batch[k]), End(t.batch[k]))
      {
        assert Present(s.disk, s.batch[k]);
      }
    }
  }

  lemma {:induction false} SyncFrame(s: State, t: State)
    requires SyncInv(s) && t.log == s.log && t.disk == s.disk && t.pool == s.pool && t.syncFailed == s.syncFailed
    requires t.batch == s.batch && (t.phase.Inserting? ==> s.phase.Inserting?)
    ensures SyncInv(t)
  {
  }

  lemma {:induction false} SkippedSync(c: Config, s: State, t: State)
    requires SyncInv(s) && IsStep(c, s, TakeSkipped, t)
    ensures SyncInv(t)
  {
    assert t.log == s.log && t.disk == s.disk && t.pool == s.pool && t.batch[..|s.batch|] == s.batch;
    if !t.syncFailed {
      forall k | 0 <= k < |t.batch| && Present(t.disk, t.batch[k])
        ensures Covered(t.pool.order, t.disk, PathOf(t.batch[k]), End(t.batch[k]))
      {
        assert k < |s.batch| && t.batch[k] == s.batch[k];
      }
    }
  }

  lemma {:induction false} SyncStep(c: Config, s: State, l: Label, t: State)
    requires FilesInv(c, s) && FlowOk(c, s) && SyncInv(s) && IsStep(c, s, l, t)
    ensures SyncInv(t)
  {
    match l
    case TakeSkipped => SkippedSync(c, s, t);
    case TakeWritten(fault, syncs) => WrittenSync(c, s, fault, syncs, t);
    case SyncPool(failing) => SyncPoolSync(c, s, failing, t);
    case Insert(ok, times) => InsertSync(c, s, ok, times, t);
    case CloseFiles(failing) => CloseFilesSync(c, s, failing, t);
    case CleanRemove(removes) => RemoveSync(c, s, removes, t);
    case _ => OtherSync(c, s, l, t);
  }

  /** The labels that touch neither the files nor the batch. */
  predicate LeavesFiles(l: Label) {
    IsQuiet(l) || l.Advance? || l.CleanStat?
  }

  lemma {:induction false} OtherSync(c: Config, s: State, l: Label, t: State)
    requires SyncInv(s) && IsStep(c, s, l, t) && LeavesFiles(l)
    ensures SyncInv(t)
  {
    if IsQuiet(l) {
      QuietLeaves(c, s, l, t);
    } else {
      assert t.pool == s.pool && t.disk == s.disk && t.log == s.log && t.batch == s.batch && t.phase == s.phase;
    }
    SyncFrame(s, t);
  }

  // The cleaner

  /** No count query has failed and no batch has been kept for an hour. */
  predicate Trusted(s: State) {
    !s.countFailed && !s.flushLate
  }

  predicate NotBatched(s: State, path: RelPath) {
    forall k :: 0 <= k < |s.batch| ==> s.batch[k].rec.filePath != Some(path)
  }

  predicate NotStored(s: State, path: RelPath) {
    forall k :: 0 <= k < |s.table| ==> s.table[k].rec.filePath != Some(path)
  }

  predicate OfProject(project: int, todo: seq<Option<RelPath>>) {
    forall k :: 0 <= k < |todo| && todo[k] != None ==> todo[k].value.project == project
  }

  predicate CleanerOk(s: State) {
    match s.cleaner
    case Resting => true
    case Selected(project, _, todo) => OfProject(project, todo)
    case Checking(project, todo) => OfProject(project, todo)
    case Aged(project, path, todo) =>
      OfProject(project, todo) && (path != None ==> path.value.project == project && NotBatched(s, path.value))
    case Unused(project, path, todo) =>
      OfProject(project, todo)
      && (path != None ==> path.value.project == project && NotBatched(s, path.value) && NotStored(s, path.value))
  }

  /** What the index or the batch refers to is there. */
  predicate Referenced(s: State) {
    && (forall k :: 0 <= k < |s.table| && s.table[k].rec.filePath != None ==>
          s.table[k].rec.filePath.value in s.disk.names)
    && (forall k :: 0 <= k < |s.batch| && HasPath(s.batch[k]) ==> PathOf(s.batch[k]) in s.disk.names)
  }

  predicate LiveInv(s: State) {
    Trusted(s) ==> Referenced(s) && CleanerOk(s)
  }

  /** A stored record refers to a file of its own project. */
  lemma {:induction false} RowProject(c: Config, s: State, k: nat)
    requires FlowOk(c, s) && k < |s.table| && s.table[k].rec.filePath != None
    ensures s.table[k].rec.filePath.value.project == s.table[k].rec.projectId
  {
    var i := s.table[k].id - 1;
    assert Items(s)[i] == s.log[i];
    assert ItemOf(c, s.accepted[s.log[i].src], s.log[i]);
  }

  /** A batched item lies in a file of the hour it was written in, so the cleaner's path cannot be that of a new one. */
  lemma {:induction false} WrittenLive(c: Config, s: State, fault: Fault, syncs: bool, t: State)
    requires FilesInv(c, s) && LiveInv(s) && IsWrite(c, s, fault, syncs, t)
    ensures LiveInv(t)
  {
    var e := s.phase.entry;
    var path, line := BuildRelPath(e.projectId, s.now, c.offset), MarshalJsonl(c.codec, e, c.stamp(s.now));
    var w := Write(s.pool, s.disk, path, line, s.now, fault, syncs);
    WriteFiles(s.pool, s.disk, path, line, s.now, c.offset, fault, syncs, w);
    AfterWriteLive(c, s, path, line, w, t);
  }

  lemma {:induction false} AfterWriteLive(c: Config, s: State, path: RelPath, line: Bytes, w: WriteResult, t: State)
    requires LiveInv(s) && CleanerPast(c, s) && s.phase.InHand? && t == AfterWrite(c, s, line, w)
    requires Grows(s.disk, w.disk) && path.hour == HourOf(s.now, c.offset)
    requires w.place != None ==> w.place.value.path == path && path in w.disk.names
    ensures LiveInv(t)
  {
    if Trusted(t) && w.place != None {
      var item := Item(WrittenRecord(s.phase.entry, w.place.value), s.phase.src, line, s.now);
      assert t.batch == s.batch + [item] && t.table == s.table && t.cleaner == s.cleaner;
      forall k | 0 <= k < |t.batch| && HasPath(t.batch[k])
        ensures PathOf(t.batch[k]) in t.disk.names
      {
        if k < |s.batch| {
          assert t.batch[k] == s.batch[k];
        }
      }
      assert CleanerOk(t);
    }
  }

  lemma {:induction false} InsertLive(c: Config, s: State, ok: bool, times: seq<Instant>, t: State)
    requires LiveInv(s) && IsInsert(s, ok, times, t)
    ensures LiveInv(t)
  {
    if ok {
      InsertedLive(s, RowsFrom(Records(s.batch), times, |s.log| + 1), t);
    } else {
      LiveFrame(s, t);
    }
  }

  /** What was batched is stored now. */
  lemma {:induction false} InsertedLive(s: State, rows: seq<Row>, t: State)
    requires LiveInv(s) && |rows| == |s.batch| && forall k :: 0 <= k < |rows| ==> rows[k].rec == s.batch[k].rec
    requires t.table == s.table + rows && t.batch == [] && t.disk == s.disk && t.cleaner == s.cleaner
    requires Trusted(t) ==> Trusted(s)
    ensures LiveInv(t)
  {
    if Trusted(t) {
      forall k | 0 <= k < |t.table|
        ensures t.table[k].rec.filePath != None ==> t.table[k].rec.filePath.value in t.disk.names
        ensures k >= |s.table| ==> t.table[k].rec == s.batch[k - |s.table|].rec
      {
        if k >= |s.table| {
          assert t.table[k] == rows[k - |s.table|];
          assert HasPath(s.batch[k - |s.table|]) ==> PathOf(s.batch[k - |s.table|]) in s.disk.names;
        }
      }
      assert CleanerOk(t);
    }
  }

  lemma {:induction false} SelectLive(c: Config, s: State, project: int, before: Instant, t: State)
    requires FlowOk(c, s) && LiveInv(s)
    requires t.cleaner == Selected(project, before, ExpiredPaths(s.table, project, before))
    requires t == s.(cleaner := t.cleaner, listed := t.listed)
    ensures LiveInv(t)
  {
    ExpiredOfProject(c, s, project, before, ExpiredPaths(s.table, project, before));
  }

  lemma {:induction false} SelectStepLive(c: Config, s: State, selects: bool, t: State)
    requires FlowOk(c, s) && LiveInv(s) && IsStep(c, s, CleanSelect(selects), t)
    ensures LiveInv(t)
  {
    if selects && NextCutoff(s) != None {
      SelectLive(c, s, s.listed[0].id, NextCutoff(s).value, t);
    } else {
      LiveFrame(s, t);
    }
  }

  lemma {:induction false} DeleteLive(c: Config, s: State, deletes: bool, t: State)
    requires LiveInv(s) && IsStep(c, s, CleanDelete(deletes), t)
    ensures LiveInv(t)
  {
    if Trusted(t) && deletes {
      KeptMembers(s.table, s.cleaner.project, s.cleaner.before);
      forall k | 0 <= k < |t.table| && t.table[k].rec.filePath != None
        ensures t.table[k].rec.filePath.value in t.disk.names
      {
        assert t.table[k] in s.table;
      }
    }
  }

  lemma {:induction false} ExpiredOfProject(c: Config, s: State, project: int, before: Instant,
                                            todo: seq<Option<RelPath>>)
    requires FlowOk(c, s) && todo == ExpiredPaths(s.table, project, before)
    ensures OfProject(project, todo)
  {
    ExpiredPathsMembers(s.table, project, before);
    forall k | 0 <= k < |todo| && todo[k] != None
      ensures todo[k].value.project == project
    {
      assert todo[k] in todo;
      var r :| r in s.table && Expired(r, project, before) && r.rec.filePath == todo[k];
      var j :| 0 <= j < |s.table| && s.table[j] == r;
      RowProject(c, s, j);
    }
  }

  /** A file that has not been modified for an hour holds no line that is still in the batch. */
  lemma {:induction false} StatLive(c: Config, s: State, answers: bool, t: State)
    requires FilesInv(c, s) && LiveInv(s) && IsStep(c, s, CleanStat(answers), t)
    ensures LiveInv(t)
  {
    var path := s.cleaner.todo[0];
    if Trusted(t) && path != None && IsAged(s, path) {
      assert path.value.project == s.cleaner.project;
      forall k | 0 <= k < |s.batch|
        ensures s.batch[k].rec.filePath != path
      {
        assert s.now < s.batch[k].writtenAt + HOUR;
        assert s.batch[k].rec.filePath == path ==> s.batch[k].writtenAt <= MtimeOf(s.disk, path.value);
      }
    }
  }

  /** No record of the project is left, so none refers to a file of it. */
  lemma {:induction false} NoneLeft(c: Config, s: State, path: RelPath)
    requires FlowOk(c, s) && CountByProject(s.table, path.project) == 0
    ensures NotStored(s, path)
  {
    CountIsRows(s.table, path.project);
    forall k | 0 <= k < |s.table|
      ensures s.table[k].rec.filePath != Some(path)
    {
      if s.table[k].rec.filePath == Some(path) {
        RowProject(c, s, k);
      }
    }
  }

  lemma {:induction false} CountLive(c: Config, s: State, answers: bool, t: State)
    requires FlowOk(c, s) && LiveInv(s) && IsStep(c, s, CleanCount(answers), t)
    ensures LiveInv(t)
  {
    if Trusted(t) && t.cleaner.Unused? && s.cleaner.path != None {
      NoneLeft(c, s, s.cleaner.path.value);
    }
  }

  lemma {:induction false} RemoveLive(c: Config, s: State, removes: bool, t: State)
    requires LiveInv(s) && IsStep(c, s, CleanRemove(removes), t)
    ensures LiveInv(t)
  {
  }

  lemma {:induction false} LiveFrame(s: State, t: State)
    requires LiveInv(s) && t.table == s.table && t.cleaner == s.cleaner && (Trusted(t) ==> Trusted(s))
    requires forall p :: p in s.disk.names ==> p in t.disk.names
    requires forall k :: 0 <= k < |t.batch| ==>
               t.batch[k].rec.filePath == None || (k < |s.batch| && t.batch[k] == s.batch[k])
    ensures LiveInv(t)
  {
  }

  lemma {:induction false} LiveStep(c: Config, s: State, l: Label, t: State)
    requires FilesInv(c, s) && FlowOk(c, s) && LiveInv(s) && IsStep(c, s, l, t)
    ensures LiveInv(t)
  {
    if IsCleaning(l) {
      CleaningLive(c, s, l, t);
    } else if l.TakeWritten? {
      WrittenLive(c, s, l.fault, l.syncs, t);
    } else if l.Insert? {
      InsertLive(c, s, l.ok, l.times, t);
    } else if l.SyncPool? || l.CloseFiles? {
      SyncHandlesGrows(s.disk, s.pool.order, l.failing);
      LiveFrame(s, t);
    } else {
      OtherLive(c, s, l, t);
    }
  }

  lemma {:induction false} CleaningLive(c: Config, s: State, l: Label, t: State)
    requires FilesInv(c, s) && FlowOk(c, s) && LiveInv(s) && IsStep(c, s, l, t) && IsCleaning(l)
    ensures LiveInv(t)
  {
    if l.CleanSelect? {
      SelectStepLive(c, s, l.selects, t);
    } else if l.CleanDelete? {
      DeleteLive(c, s, l.deletes, t);
    } else if l.CleanStat? {
      StatLive(c, s, l.answers, t);
    } else if l.CleanCount? {
      CountLive(c, s, l.answers, t);
    } else {
      RemoveLive(c, s, l.removes, t);
    }
  }

  lemma {:induction false} OtherLive(c: Config, s: State, l: Label, t: State)
    requires LiveInv(s) && IsStep(c, s, l, t)
    requires l.TakeSkipped? || l.Advance? || (IsQuiet(l) && !IsCleaning(l))
    ensures LiveInv(t)
  {
    LiveFrame(s, t);
  }

  // Every run

  ghost predicate Inv(c: Config, s: State) {
    FlowOk(c, s) && FilesInv(c, s) && SyncInv(s) && LiveInv(s)
  }

  lemma {:induction false} InvInitial(c: Config, now: nat)
    requires ConfigOk(c)
    ensures Inv(c, Initial(c, now))
  {
    FlowInitial(c, now);
    FilesInitial(c, now);
  }

  lemma {:induction false} InvStep(c: Config, s: State, l: Label, t: State)
    requires ConfigOk(c) && Inv(c, s) && IsStep(c, s, l, t)
    ensures Inv(c, t)
  {
    FlowStep(c, s, l, t);
    FilesStep(c, s, l, t);
    SyncStep(c, s, l, t);
    LiveStep(c, s, l, t);
  }

  lemma {:induction false} InvAlways(c: Config, s: State, run: seq<Label>, t: State)
    requires ConfigOk(c) && Inv(c, s) && Steps(c, s, run, t)
    ensures Inv(c, t)
    decreases |run|
  {
    if run != [] {
      InvStep(c, s, run[0], Apply(c, s, run[0]));
      InvAlways(c, Apply(c, s, run[0]), run[1..], t);
    }
  }

  ghost predicate Reached(c: Config, start: nat, run: seq<Label>, t: State) {
    ConfigOk(c) && Steps(c, Initial(c, start), run, t)
  }

  lemma {:induction false} ReachedInv(c: Config, start: nat, run: seq<Label>, t: State)
    requires Reached(c, start, run, t)
    ensures Inv(c, t)
  {
    InvInitial(c, start);
    InvAlways(c, Initial(c, start), run, t);
  }

  // What the flags record

  /** A sync fails: of an open file, or of the one evicted for a path that is to be opened. */
  predicate FailsSync(c: Config, s: State, l: Label) {
    match l
    case SyncPool(failing) => exists k :: 0 <= k < |s.pool.order| && s.pool.order[k].fd in failing
    case CloseFiles(failing) => exists k :: 0 <= k < |s.pool.order| && s.pool.order[k].fd in failing
    case TakeWritten(fault, syncs) =>
      && s.phase.InHand? && !syncs && !fault.MkdirFails? && !fault.OpenFails? && |s.pool.order| == s.pool.capacity
      && !InPool(s.pool.order, RelPath(s.phase.entry.projectId, (s.now + c.offset) / 3600))
    case _ => false
  }

  /** The clock reaches the end of the hour after some batched line was written. */
  predicate ComesLate(s: State, l: Label) {
    l.Advance? && exists k :: 0 <= k < |s.batch| && s.batch[k].writtenAt + 3600 <= l.now
  }

  predicate FailsSyncOn(c: Config, s: State, run: seq<Label>)
    decreases |run|
  {
    run != [] && Enabled(c, s, run[0])
    && (FailsSync(c, s, run[0]) || FailsSyncOn(c, Apply(c, s, run[0]), run[1..]))
  }

  predicate ComesLateOn(c: Config, s: State, run: seq<Label>)
    decreases |run|
  {
    run != [] && Enabled(c, s, run[0])
    && (ComesLate(s, run[0]) || ComesLateOn(c, Apply(c, s, run[0]), run[1..]))
  }

  predicate Flags(c: Config, s: State, l: Label, t: State) {
    && (t.syncFailed <==> s.syncFailed || FailsSync(c, s, l))
    && (t.flushLate <==> s.flushLate || ComesLate(s, l))
    && (t.countFailed <==> s.countFailed || l == CleanCount(false))
  }

  lemma {:induction false} FlagStep(c: Config, s: State, l: Label, t: State)
    requires PoolOk(s.pool) && IsStep(c, s, l, t)
    ensures Flags(c, s, l, t)
  {
    if l.TakeWritten? {
      FlagsTaken(c, s, l.fault, l.syncs, t);
    } else if IsCleaning(l) {
      FlagsCleaning(c, s, l, t);
    } else if ChangesProjects(l) || l.Insert? {
      FlagsAside(c, s, l, t);
    } else {
      FlagsElsewhere(c, s, l, t);
    }
  }

  lemma {:induction false} FlagsTaken(c: Config, s: State, fault: Fault, syncs: bool, t: State)
    requires PoolOk(s.pool) && s.phase.InHand? && t == TakeWrite(c, s, fault, syncs)
    ensures Flags(c, s, TakeWritten(fault, syncs), t)
  {
    var e := s.phase.entry;
    var line := MarshalJsonl(c.codec, e, c.stamp(s.now));
    WriteLostIff(s.pool, s.disk, BuildRelPath(e.projectId, s.now, c.offset), line, s.now, fault, syncs);
  }

  lemma {:induction false} FlagsCleaning(c: Config, s: State, l: Label, t: State)
    requires IsStep(c, s, l, t) && IsCleaning(l)
    ensures Flags(c, s, l, t)
  {
    assert t == Clean(c, s, l);
  }

  lemma {:induction false} FlagsAside(c: Config, s: State, l: Label, t: State)
    requires IsStep(c, s, l, t) && (ChangesProjects(l) || l.Insert?)
    ensures Flags(c, s, l, t)
  {
    if ChangesProjects(l) {
      assert t == ChangeProjects(c, s, l);
    }
  }

  lemma {:induction false} FlagsElsewhere(c: Config, s: State, l: Label, t: State)
    requires IsStep(c, s, l, t) && !l.TakeWritten? && !l.Insert? && !IsCleaning(l) && !ChangesProjects(l)
    ensures Flags(c, s, l, t)
  {
  }

  lemma {:induction false} FlagsFrom(c: Config, s: State, run: seq<Label>, t: State)
    requires ConfigOk(c) && Inv(c, s) && Steps(c, s, run, t)
    ensures t.syncFailed <==> s.syncFailed || FailsSyncOn(c, s, run)
    ensures t.flushLate <==> s.flushLate || ComesLateOn(c, s, run)
    ensures t.countFailed <==> s.countFailed || CleanCount(false) in run
    decreases |run|
  {
    if run != [] {
      var u := Apply(c, s, run[0]);
      FlagStep(c, s, run[0], u);
      InvStep(c, s, run[0], u);
      FlagsFrom(c, u, run[1..], t);
      assert run == [run[0]] + run[1..];
    }
  }

  /** The flags stand for faults of the run and for nothing else, so a run without faults has all that they bar. */
  lemma {:induction false} FlagsAreFaults(c: Config, start: nat, run: seq<Label>, t: State)
    requires Reached(c, start, run, t)
    ensures t.syncFailed <==> FailsSyncOn(c, Initial(c, start), run)
    ensures t.flushLate <==> ComesLateOn(c, Initial(c, start), run)
    ensures t.countFailed <==> CleanCount(false) in run
  {
    InvInitial(c, start);
    FlagsFrom(c, Initial(c, start), run, t);
  }

  /** The item a row stands for. */
  function ItemOfRow(s: State, row: Row): Item
    requires 0 < row.id <= |s.log|
  {
    s.log[row.id - 1]
  }

  /**
   In every run each stored record is that of its entry: which request, project and model, whether streamed or skipped,
   the status and the sizes of the two bodies; and it refers to the file of its project and of the hour it was
   written in.
   */
  lemma {:induction false} StoredRowIsItsEntry(c: Config, start: nat, run: seq<Label>, t: State, k: nat)
    requires Reached(c, start, run, t) && k < |t.table|
    ensures 0 < t.table[k].id <= |t.log| && t.log[t.table[k].id - 1].src < |t.accepted|
    ensures var r, e := t.table[k].rec, t.accepted[t.log[t.table[k].id - 1].src];
            r.requestId == e.requestId && r.projectId == e.projectId && r.publicModelName == e.publicModelName
            && r.stream == e.stream && r.statusCode == e.statusCode && r.bodySkipped == e.bodySkipped
    ensures var r, e := t.table[k].rec, t.accepted[t.log[t.table[k].id - 1].src];
            if e.bodySkipped then r.filePath == None && r.requestSize == 0 && r.responseSize == 0
            else r.requestSize == (if e.requestBody == None then 0 else |e.requestBody.value|)
                 && r.responseSize == (if e.responseBody == None then 0 else |e.responseBody.value|)
                 && r.filePath == Some(RelPath(e.projectId, (t.log[t.table[k].id - 1].writtenAt + c.offset) / 3600))
  {
    ReachedInv(c, start, run, t);
    var it := t.log[t.table[k].id - 1];
    assert Items(t)[t.table[k].id - 1] == it && t.table[k].rec == it.rec;
    var e := t.accepted[it.src];
    assert ItemOf(c, e, it);
    if !e.bodySkipped {
      RecordsDescribe(e, Place(it.rec.filePath.value, it.rec.fileOffset));
    }
  }

  /**
   An entry marked as skipped gets no file: it cannot be written, and the step that takes it leaves the pool and all
   files alone and batches a record without path and sizes.
   */
  lemma {:induction false} SkippedGetsNoFile(c: Config, s: State, fault: Fault, syncs: bool)
    requires s.phase.InHand? && s.phase.entry.bodySkipped
    ensures Enabled(c, s, TakeSkipped) && !Enabled(c, s, TakeWritten(fault, syncs))
    ensures var t := Apply(c, s, TakeSkipped);
            t.pool == s.pool && t.disk == s.disk && t.writeErrors == s.writeErrors
            && |t.batch| == |s.batch| + 1 && t.batch[..|s.batch|] == s.batch
            && var r := t.batch[|s.batch|].rec;
               r.bodySkipped && r.filePath == None && r.requestSize == 0 && r.responseSize == 0
               && r.requestId == s.phase.entry.requestId && r.projectId == s.phase.entry.projectId
  {
  }

  /** So a query finds a stored record by the stream flag, the model and the status of its entry. */
  lemma {:induction false} FoundByItsEntry(c: Config, start: nat, run: seq<Label>, t: State, k: nat, project: int,
                                           cursor: int, f: Filter)
    requires Reached(c, start, run, t) && k < |t.table|
    ensures 0 < t.table[k].id <= |t.log| && t.log[t.table[k].id - 1].src < |t.accepted|
    ensures var row, e := t.table[k], t.accepted[t.log[t.table[k].id - 1].src];
            AllHold(ListConditions(project, cursor, f), row) <==>
              e.projectId == project && row.id > cursor
              && (f.stream != None ==> e.stream == f.stream.value)
              && (f.model != "" ==> e.publicModelName == f.model)
              && (f.statusCode != None ==> e.statusCode == f.statusCode.value)
              && (f.since != None ==> row.createdAt / 86400 > f.since.value / 86400)
              && (f.until != None ==> row.createdAt / 86400 <= f.until.value / 86400)
  {
    StoredRowIsItsEntry(c, start, run, t, k);
    ConditionsMean(t.table[k], project, cursor, f);
  }

  /**
   Index/file agreement. Seeking to a stored record's offset in its file and reading one line gives exactly
   the line marshalled for its entry, if that fits the reader's buffer, and nothing if it does not. The file is
   there as long as no count query failed and no batch waited for an hour.
   */
  lemma {:induction false} IndexAgreesWithFiles(c: Config, start: nat, run: seq<Label>, t: State, k: nat)
    requires Reached(c, start, run, t)
    requires k < |t.table| && t.table[k].rec.filePath != None
    ensures 0 < t.table[k].id <= |t.log| && ItemOfRow(t, t.table[k]).src < |t.accepted|
    ensures var path, offset := t.table[k].rec.filePath.value, t.table[k].rec.fileOffset;
            var it := ItemOfRow(t, t.table[k]);
            var line := MarshalJsonl(c.codec, t.accepted[it.src], c.stamp(it.writtenAt));
            (path in t.disk.names ==> ReadAt(t.disk, path, offset) == if |line| < MAX_LINE then Some(line) else None)
            && (Trusted(t) ==> path in t.disk.names)
  {
    ReachedInv(c, start, run, t);
    var i := t.table[k].id - 1;
    var it := t.log[i];
    assert Items(t)[i] == it && t.table[k].rec == it.rec;
    assert PlacedItem(t.disk, it) && ItemOf(c, t.accepted[it.src], it);
    ItemReadsBack(c, t.disk, t.accepted[it.src], it);
  }

  lemma {:induction false} ItemReadsBack(c: Config, d: Disk, e: Entry, it: Item)
    requires Lawful(c.codec) && Sound(d) && HasPath(it) && PlacedItem(d, it) && ItemOf(c, e, it)
    ensures var line := MarshalJsonl(c.codec, e, c.stamp(it.writtenAt));
            ReadAt(d, PathOf(it), it.rec.fileOffset)
            == if PathOf(it) in d.names && |line| < MAX_LINE then Some(line) else None
  {
    if PathOf(it) in d.names {
      MarshalledLine(c.codec, e, c.stamp(it.writtenAt));
      ReadBack(ContentOf(d, PathOf(it)), it.rec.fileOffset, it.line);
    }
  }

  lemma {:induction false} HistoryGrows(c: Config, s: State, run: seq<Label>, t: State)
    requires Steps(c, s, run, t)
    ensures s.log <= t.log && s.accepted <= t.accepted
    decreases |run|
  {
    if run != [] {
      StepLeaves(c, s, run[0], Apply(c, s, run[0]));
      HistoryGrows(c, Apply(c, s, run[0]), run[1..], t);
    }
  }

  /**
   A reader that still holds a row from an earlier state, which may have been deleted since, never reads a wrong line:
   it gets the row's own line, or finds no file.
   */
  lemma {:induction false} StaleRowReadsItsLine(c: Config, start: nat, run: seq<Label>, s: State, k: nat,
                                                later: seq<Label>, t: State)
    requires Reached(c, start, run, s) && Steps(c, s, later, t)
    requires k < |s.table| && s.table[k].rec.filePath != None
    ensures 0 < s.table[k].id <= |s.log| && ItemOfRow(s, s.table[k]).src < |s.accepted|
    ensures var it := ItemOfRow(s, s.table[k]);
            var line := MarshalJsonl(c.codec, s.accepted[it.src], c.stamp(it.writtenAt));
            var found := ReadAt(t.disk, s.table[k].rec.filePath.value, s.table[k].rec.fileOffset);
            found == None || found == Some(line)
  {
    ReachedInv(c, start, run, s);
    InvAlways(c, s, later, t);
    HistoryGrows(c, s, later, t);
    var i := s.table[k].id - 1;
    var it := s.log[i];
    assert Items(s)[i] == it && Items(t)[i] == it;
    assert ItemOf(c, s.accepted[it.src], it) && PlacedItem(t.disk, it);
    ItemReadsBack(c, t.disk, s.accepted[it.src], it);
  }

  /** The lines of two stored records in one file do not overlap, and lie in the order of the identifiers. */
  lemma {:induction false} LinesDisjoint(c: Config, start: nat, run: seq<Label>, t: State, j: nat, k: nat)
    requires Reached(c, start, run, t) && j < k < |t.table|
    requires t.table[j].rec.filePath != None && t.table[k].rec.filePath == t.table[j].rec.filePath
    ensures 0 < t.table[j].id <= |t.log|
    ensures t.table[j].rec.fileOffset + |ItemOfRow(t, t.table[j]).line| + 1 <= t.table[k].rec.fileOffset
  {
    ReachedInv(c, start, run, t);
    var a, b := t.table[j].id - 1, t.table[k].id - 1;
    assert a < b;
    assert Items(t)[a] == t.log[a] && Items(t)[b] == t.log[b];
    assert t.table[j].rec == t.log[a].rec && t.table[k].rec == t.log[b].rec;
  }

  /**
   As long as no sync failed, every byte an indexed record refers to is on disk, unless its file has lost its name;
   in a trusted state it has not.
   */
  lemma {:induction false} IndexedIsDurable(c: Config, start: nat, run: seq<Label>, t: State, k: nat)
    requires Reached(c, start, run, t) && !t.syncFailed
    requires k < |t.table| && t.table[k].rec.filePath != None
    ensures 0 < t.table[k].id <= |t.log|
    ensures var path := t.table[k].rec.filePath.value;
            Trusted(t) || path in t.disk.names ==>
              SyncedTo(t.disk, path, t.table[k].rec.fileOffset + |ItemOfRow(t, t.table[k]).line| + 1)
  {
    ReachedInv(c, start, run, t);
    var i := t.table[k].id - 1;
    assert t.table[k].rec == t.log[i].rec;
    if Trusted(t) || t.table[k].rec.filePath.value in t.disk.names {
      assert Present(t.disk, t.log[i]);
    }
  }

  /** The order of it: what a batch is about to index is on disk before any attempt to insert it. */
  lemma {:induction false} SyncedBeforeInsert(c: Config, start: nat, run: seq<Label>, t: State, k: nat)
    requires Reached(c, start, run, t) && !t.syncFailed && t.phase.Inserting?
    requires k < |t.batch| && HasPath(t.batch[k])
    ensures Trusted(t) || PathOf(t.batch[k]) in t.disk.names ==> SyncedTo(t.disk, PathOf(t.batch[k]), End(t.batch[k]))
  {
    ReachedInv(c, start, run, t);
    if Trusted(t) || PathOf(t.batch[k]) in t.disk.names {
      assert Present(t.disk, t.batch[k]);
    }
  }

  /** After `Close` has returned: nothing is left over, and every handle ever opened was closed, once. */
  lemma {:induction false} GracefulDrain(c: Config, start: nat, run: seq<Label>, t: State)
    requires Reached(c, start, run, t) && t.phase.Closed?
    ensures t.queue == [] && t.batch == []
    ensures |t.accepted| == |t.log| + t.writeErrors + t.storeErrors
    ensures Distinct(t.pool.closed) && forall fd: nat :: fd in t.pool.closed <==> fd < t.pool.nextFd
  {
    ReachedInv(c, start, run, t);
    forall fd: nat | fd < t.pool.nextFd
      ensures fd in t.pool.closed
    {
      assert !Owns(t.pool.order, fd);
    }
  }

  /** A path that has lost its file, and belongs to an hour that is over, never gets one again. */
  lemma {:induction false} GoneForGood(c: Config, s: State, path: RelPath, run: seq<Label>, t: State)
    requires ConfigOk(c) && Inv(c, s) && Steps(c, s, run, t)
    requires path !in s.disk.names && path.hour < HourOf(s.now, c.offset)
    ensures path !in t.disk.names && path.hour < HourOf(t.now, c.offset)
    decreases |run|
  {
    if run != [] {
      var u := Apply(c, s, run[0]);
      InvStep(c, s, run[0], u);
      StepCreatesNow(c, s, run[0], u, path);
      GoneForGood(c, u, path, run[1..], t);
    }
  }

  lemma {:induction false} StepCreatesNow(c: Config, s: State, l: Label, u: State, path: RelPath)
    requires FilesInv(c, s) && IsStep(c, s, l, u)
    requires path !in s.disk.names && path.hour < HourOf(s.now, c.offset)
    ensures path !in u.disk.names && path.hour < HourOf(u.now, c.offset)
  {
    match l
    case TakeWritten(fault, syncs) =>
      var e := s.phase.entry;
      var p, line := BuildRelPath(e.projectId, s.now, c.offset), MarshalJsonl(c.codec, e, c.stamp(s.now));
      var w := Write(s.pool, s.disk, p, line, s.now, fault, syncs);
      WriteFiles(s.pool, s.disk, p, line, s.now, c.offset, fault, syncs, w);
      AfterWriteNames(c, s, line, w, u);
    case SyncPool(failing) => SyncHandlesGrows(s.disk, s.pool.order, failing);
    case CloseFiles(failing) => SyncHandlesGrows(s.disk, s.pool.order, failing);
    case _ => OtherNames(c, s, l, u, path);
  }

  lemma {:induction false} AfterWriteNames(c: Config, s: State, line: Bytes, w: WriteResult, u: State)
    requires s.phase.InHand? && u == AfterWrite(c, s, line, w)
    ensures u.disk == w.disk && u.now == s.now
  {
  }

  lemma {:induction false} OtherNames(c: Config, s: State, l: Label, u: State, path: RelPath)
    requires IsStep(c, s, l, u) && !l.TakeWritten? && !l.SyncPool? && !l.CloseFiles?
    requires path !in s.disk.names && path.hour < HourOf(s.now, c.offset)
    ensures path !in u.disk.names && path.hour < HourOf(u.now, c.offset)
  {
    if IsQuiet(l) {
      QuietLeaves(c, s, l, u);
    } else if l.Insert? {
      assert u == InsertBatch(s, l.ok, l.times);
    } else if l.Advance? {
      assert HourOf(s.now, c.offset) <= HourOf(u.now, c.offset);
    } else {
      assert u.now == s.now;
    }
  }

  lemma {:induction false} UnusedIff(c: Config, s: State, answers: bool)
    requires s.cleaner.Aged?
    ensures var u := Apply(c, s, CleanCount(answers));
            u.table == s.table
            && (u.cleaner.Unused? <==> !answers || CountByProject(s.table, s.cleaner.project) == 0)
            && (u.cleaner.Unused? ==> u.cleaner.path == s.cleaner.path)
  {
  }

  lemma {:induction false} RemovesUnused(c: Config, u: State)
    requires u.cleaner.Unused? && u.cleaner.path != None
    ensures var t := Apply(c, u, CleanRemove(true)); t.table == u.table && u.cleaner.path.value !in t.disk.names
  {
  }

  /**
   The count query decides: the file the cleaner goes on to remove is referred to by no stored record exactly when
   the query was answered, or there was no such record anyway. Unanswered, it counts as zero and the file goes.
   */
  lemma {:induction false} CountDecides(c: Config, s: State, answers: bool)
    requires FlowOk(c, s) && s.cleaner.Aged? && s.cleaner.path != None
    requires s.cleaner.path.value.project == s.cleaner.project
    ensures var path, u := s.cleaner.path.value, Apply(c, s, CleanCount(answers));
            ((u.cleaner.Unused? ==> NotStored(s, path)) <==> answers || NotStored(s, path))
            && (u.cleaner.Unused? ==>
                  var t := Apply(c, u, CleanRemove(true)); t.table == s.table && path !in t.disk.names)
  {
    if answers && CountByProject(s.table, s.cleaner.project) == 0 {
      NoneLeft(c, s, s.cleaner.path.value);
    }
    UnusedIff(c, s, answers);
    if Apply(c, s, CleanCount(answers)).cleaner.Unused? {
      RemovesUnused(c, Apply(c, s, CleanCount(answers)));
    }
  }
}
