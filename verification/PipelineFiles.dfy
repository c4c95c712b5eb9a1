/** What the steps of the pipeline do to files: index and files agree, indexed bytes are on disk, live files stay. */
module PipelineFiles {
  import opened Lines
  import opened Json
  import opened Calendar
  import opened CaptureEntry
  import opened CaptureStore
  import opened CaptureDisk
  import opened FilePool
  import opened CaptureWriter
  import opened CapturePipeline
  import opened PipelineFlow

  predicate HasPath(it: Item) {
    it.rec.filePath != None
  }

  function PathOf(it: Item): RelPath
    requires HasPath(it)
  {
    it.rec.filePath.value
  }

  /** One past the line feed of the item's line. */
  function End(it: Item): nat {
    it.rec.fileOffset + |it.line| + 1
  }

  function ContentOf(d: Disk, path: RelPath): Bytes {
    if path in d.names && d.names[path] < |d.inodes| then d.inodes[d.names[path]].content else []
  }

  function MtimeOf(d: Disk, path: RelPath): nat {
    if path in d.names && d.names[path] < |d.inodes| then d.inodes[d.names[path]].mtime else 0
  }

  // Index/file agreement

  predicate PlacedItem(d: Disk, it: Item) {
    HasPath(it) && PathOf(it) in d.names ==> LineAt(ContentOf(d, PathOf(it)), it.rec.fileOffset, it.line)
  }

  /** Every item's line stands in its file, as long as there is that file. */
  predicate Placed(s: State) {
    forall i :: 0 <= i < |Items(s)| ==> PlacedItem(s.disk, Items(s)[i])
  }

  /** The lines in one file do not overlap and come in the order of their entries. */
  predicate Disjoint(s: State) {
    forall i, j :: 0 <= i < j < |Items(s)|
      && HasPath(Items(s)[i]) && Items(s)[j].rec.filePath == Items(s)[i].rec.filePath
      ==> End(Items(s)[i]) <= Items(s)[j].rec.fileOffset
  }

  predicate OldIfGone(c: Config, s: State, path: RelPath) {
    path in s.disk.names || path.hour < HourOf(s.now, c.offset)
  }

  predicate GoneIsOld(c: Config, s: State) {
    forall i :: 0 <= i < |Items(s)| && HasPath(Items(s)[i]) ==> OldIfGone(c, s, PathOf(Items(s)[i]))
  }

  /** A batched item was written by now, and its file not modified before that. */
  predicate BatchTimed(s: State) {
    forall k :: 0 <= k < |s.batch| ==>
      s.batch[k].writtenAt <= s.now
      && (!s.flushLate ==> s.now < s.batch[k].writtenAt + HOUR)
      && (HasPath(s.batch[k]) && PathOf(s.batch[k]) in s.disk.names
          ==> s.batch[k].writtenAt <= MtimeOf(s.disk, PathOf(s.batch[k])))
  }

  /** The cleaner goes on with paths of hours that are over only. */
  predicate CleanerPast(c: Config, s: State) {
    match s.cleaner
    case Aged(_, path, _) => path == None || path.value.hour < HourOf(s.now, c.offset)
    case Unused(_, path, _) => path == None || path.value.hour < HourOf(s.now, c.offset)
    case _ => true
  }

  ghost predicate FilesInv(c: Config, s: State) {
    && FilesOk(s.pool, s.disk, s.now, c.offset) && s.pool.capacity == c.poolSize
    && (s.phase.Closed? ==> s.pool.order == [])
    && Placed(s) && Disjoint(s) && GoneIsOld(c, s) && BatchTimed(s) && CleanerPast(c, s)
  }

  lemma {:induction false} FilesInitial(c: Config, now: nat)
    requires ConfigOk(c)
    ensures FilesInv(c, Initial(c, now))
  {
  }

  /**
   Files that only grow keep every item's line, unless a file appears under the path of an item that had lost
   its own.
   */
  lemma {:induction false} PlacedGrows(d: Disk, e: Disk, it: Item)
    requires Sound(d) && Grows(d, e) && PlacedItem(d, it)
    requires HasPath(it) && PathOf(it) in e.names ==> PathOf(it) in d.names
    ensures PlacedItem(e, it)
  {
    if HasPath(it) && PathOf(it) in e.names {
      var path := PathOf(it);
      assert FileGrows(d.inodes[d.names[path]], e.inodes[d.names[path]]);
      LineAtGrows(ContentOf(d, path), ContentOf(e, path), it.rec.fileOffset, it.line);
    }
  }

  lemma {:induction false} MtimeGrows(d: Disk, e: Disk, path: RelPath)
    requires Sound(d) && Grows(d, e) && path in d.names
    ensures path in e.names && MtimeOf(d, path) <= MtimeOf(e, path)
    ensures ContentOf(d, path) <= ContentOf(e, path)
  {
    assert FileGrows(d.inodes[d.names[path]], e.inodes[d.names[path]]);
  }

  /** A step by which files only grow, with at most a path of the current hour appearing. */
  predicate NewOnly(d: Disk, e: Disk, path: RelPath) {
    forall q :: q in e.names ==> q in d.names || q == path
  }

  lemma {:induction false} FilesGrow(c: Config, s: State, t: State, path: RelPath)
    requires FilesInv(c, s) && FilesOk(t.pool, t.disk, t.now, c.offset) && t.pool.capacity == c.poolSize
    requires Grows(s.disk, t.disk) && NewOnly(s.disk, t.disk, path) && path.hour == HourOf(s.now, c.offset)
    requires Items(t) == Items(s) && t.batch == s.batch && t.now == s.now && t.cleaner == s.cleaner
    requires t.flushLate == s.flushLate && (t.phase.Closed? ==> t.pool.order == [])
    ensures FilesInv(c, t)
  {
    forall i | 0 <= i < |Items(t)|
      ensures PlacedItem(t.disk, Items(t)[i])
      ensures HasPath(Items(t)[i]) ==> OldIfGone(c, t, PathOf(Items(t)[i]))
    {
      assert PlacedItem(s.disk, Items(s)[i]);
      PlacedGrows(s.disk, t.disk, Items(t)[i]);
    }
    forall k | 0 <= k < |t.batch| && HasPath(t.batch[k]) && PathOf(t.batch[k]) in t.disk.names
      ensures t.batch[k].writtenAt <= MtimeOf(t.disk, PathOf(t.batch[k]))
    {
      assert t.batch[k] == Items(s)[|s.log| + k];
      assert PathOf(t.batch[k]) in s.disk.names;
      MtimeGrows(s.disk, t.disk, PathOf(t.batch[k]));
    }
  }

  /** A written item takes its place behind all the others in its file. */
  lemma {:induction false} AppendedItem(c: Config, s: State, u: State, item: Item, t: State)
    requires FilesInv(c, s) && FilesInv(c, u) && Items(u) == Items(s) && u.now == s.now && u.batch == s.batch
    requires HasPath(item) && item.writtenAt == s.now && PathOf(item).hour == HourOf(s.now, c.offset)
    requires Written(s.disk, u.disk, PathOf(item), Place(PathOf(item), item.rec.fileOffset), item.line, s.now)
    requires t == u.(batch := u.batch + [item], phase := t.phase) && !t.phase.Closed?
    ensures FilesInv(c, t)
  {
    var n := |Items(s)|;
    assert Items(t) == Items(s) + [item];
    forall i | 0 <= i < n && Items(s)[i].rec.filePath == item.rec.filePath
      ensures End(Items(s)[i]) <= item.rec.fileOffset
    {
      assert PlacedItem(s.disk, Items(s)[i]) && OldIfGone(c, s, PathOf(Items(s)[i]));
    }
    forall i | 0 <= i < |Items(t)|
      ensures PlacedItem(t.disk, Items(t)[i])
      ensures HasPath(Items(t)[i]) ==> OldIfGone(c, t, PathOf(Items(t)[i]))
    {
      if i < n {
        assert PlacedItem(u.disk, Items(u)[i]);
      }
    }
  }

  lemma {:induction false} WrittenFiles(c: Config, s: State, fault: Fault, syncs: bool, t: State)
    requires FilesInv(c, s) && IsWrite(c, s, fault, syncs, t)
    ensures FilesInv(c, t)
  {
    var e := s.phase.entry;
    var path, line := BuildRelPath(e.projectId, s.now, c.offset), MarshalJsonl(c.codec, e, c.stamp(s.now));
    var w := Write(s.pool, s.disk, path, line, s.now, fault, syncs);
    WriteFiles(s.pool, s.disk, path, line, s.now, c.offset, fault, syncs, w);
    WriteCapacity(s.pool, s.disk, path, line, s.now, fault, syncs, w);
    AfterWriteFiles(c, s, path, line, w, t);
  }

  lemma {:induction false} AfterWriteFiles(c: Config, s: State, path: RelPath, line: Bytes, w: WriteResult, t: State)
    requires FilesInv(c, s) && s.phase.InHand? && t == AfterWrite(c, s, line, w)
    requires FilesOk(w.pool, w.disk, s.now, c.offset) && w.pool.capacity == c.poolSize
    requires Grows(s.disk, w.disk) && NewOnly(s.disk, w.disk, path) && path.hour == HourOf(s.now, c.offset)
    requires w.place != None ==> Written(s.disk, w.disk, path, w.place.value, line, s.now)
    ensures FilesInv(c, t)
  {
    if w.place == None {
      GrownFiles(c, s, path, t);
    } else {
      var u := s.(pool := w.pool, disk := w.disk, syncFailed := s.syncFailed || w.lost);
      GrownFiles(c, s, path, u);
      AppendedItem(c, s, u, Item(WrittenRecord(s.phase.entry, w.place.value), s.phase.src, line, s.now), t);
    }
  }

  lemma {:induction false} GrownFiles(c: Config, s: State, path: RelPath, t: State)
    requires FilesInv(c, s) && FilesOk(t.pool, t.disk, s.now, c.offset) && t.pool.capacity == c.poolSize
    requires Grows(s.disk, t.disk) && NewOnly(s.disk, t.disk, path) && path.hour == HourOf(s.now, c.offset)
    requires t == s.(pool := t.pool, disk := t.disk, syncFailed := t.syncFailed, writeErrors := t.writeErrors,
                     phase := t.phase)
    requires t.phase.Closed? ==> t.pool.order == []
    ensures FilesInv(c, t)
  {
    FilesGrow(c, s, t, path);
  }

  lemma {:induction false} WriteCapacity(p: Pool, d: Disk, path: RelPath, line: Bytes, now: nat, fault: Fault,
                                         syncs: bool, w: WriteResult)
    requires PoolOk(p) && w == Write(p, d, path, line, now, fault, syncs)
    ensures w.pool.capacity == p.capacity
  {
    PoolGetOk(p, d, path, now, !fault.OpenFails?, syncs, PoolGet(p, d, path, now, !fault.OpenFails?, syncs));
  }

  lemma {:induction false} SkippedFiles(c: Config, s: State, t: State)
    requires FilesInv(c, s) && IsStep(c, s, TakeSkipped, t)
    ensures FilesInv(c, t)
  {
    var item := Item(SkippedRecord(s.phase.entry), s.phase.src, [], s.now);
    assert Items(t) == Items(s) + [item];
    forall i | 0 <= i < |Items(t)|
      ensures PlacedItem(t.disk, Items(t)[i])
      ensures HasPath(Items(t)[i]) ==> OldIfGone(c, t, PathOf(Items(t)[i]))
    {
      if i < |Items(s)| {
        assert PlacedItem(s.disk, Items(s)[i]);
      }
    }
  }

  lemma {:induction false} SyncedOk(p: Pool, d: Disk, failing: set<nat>, now: nat, offset: nat, e: Disk)
    requires FilesOk(p, d, now, offset) && e == SyncHandles(d, p.order, failing)
    ensures FilesOk(p, e, now, offset) && Grows(d, e) && e.names == d.names
  {
    SyncHandlesGrows(d, p.order, failing);
    HandlesGrow(p.order, d, e);
    forall i | 0 <= i < |e.inodes|
      ensures e.inodes[i].mtime <= now && HourOf(e.inodes[i].mtime, offset) == e.inodes[i].path.hour
    {
      assert FileGrows(d.inodes[i], e.inodes[i]);
    }
  }

  lemma {:induction false} SyncPoolFiles(c: Config, s: State, failing: set<nat>, t: State)
    requires FilesInv(c, s) && IsStep(c, s, SyncPool(failing), t)
    ensures FilesInv(c, t)
  {
    SyncedOk(s.pool, s.disk, failing, s.now, c.offset, t.disk);
    FilesGrow(c, s, t, RelPath(0, HourOf(s.now, c.offset)));
  }

  lemma {:induction false} CloseFilesFiles(c: Config, s: State, failing: set<nat>, t: State)
    requires FilesInv(c, s) && IsStep(c, s, CloseFiles(failing), t)
    ensures FilesInv(c, t)
  {
    SyncedOk(s.pool, s.disk, failing, s.now, c.offset, t.disk);
    CloseAllClosesOnce(s.pool);
    FilesGrow(c, s, t, RelPath(0, HourOf(s.now, c.offset)));
  }

  lemma {:induction false} AdvanceFiles(c: Config, s: State, now: nat, t: State)
    requires FilesInv(c, s) && IsStep(c, s, Advance(now), t)
    ensures FilesInv(c, t)
  {
    assert HourOf(s.now, c.offset) <= HourOf(now, c.offset);
    assert Items(t) == Items(s);
    assert FilesOk(t.pool, t.disk, t.now, c.offset);
    forall i | 0 <= i < |Items(t)| && HasPath(Items(t)[i])
      ensures OldIfGone(c, t, PathOf(Items(t)[i]))
    {
      assert OldIfGone(c, s, PathOf(Items(s)[i]));
    }
    if !t.flushLate {
      forall k | 0 <= k < |t.batch|
        ensures t.now < t.batch[k].writtenAt + HOUR
      {
        assert !(t.batch[k].writtenAt + HOUR <= now);
      }
    }
  }

  /** Steps that leave the files alone; items may only leave the batch, into the log or off the end. */
  lemma {:induction false} QuietFiles(c: Config, s: State, t: State)
    requires FilesInv(c, s) && t.pool == s.pool && t.disk == s.disk && t.now == s.now && t.flushLate == s.flushLate
    requires Items(t) <= Items(s) && (t.batch == s.batch || t.batch == [])
    requires t.phase.Closed? ==> s.phase.Closed?
    requires CleanerPast(c, t)
    ensures FilesInv(c, t)
  {
    forall i | 0 <= i < |Items(t)|
      ensures PlacedItem(t.disk, Items(t)[i])
      ensures HasPath(Items(t)[i]) ==> OldIfGone(c, t, PathOf(Items(t)[i]))
    {
      assert Items(t)[i] == Items(s)[i] && PlacedItem(s.disk, Items(s)[i]);
    }
    assert Disjoint(t) by {
      assert forall i :: 0 <= i < |Items(t)| ==> Items(t)[i] == Items(s)[i];
    }
  }

  /** A file not modified for an hour is of an hour that is over. */
  lemma {:induction false} AgedIsPast(c: Config, s: State, path: RelPath)
    requires FilesInv(c, s) && IsAged(s, Some(path))
    ensures path.hour < HourOf(s.now, c.offset)
  {
    var mtime := s.disk.inodes[s.disk.names[path]].mtime;
    assert HourOf(mtime, c.offset) == path.hour;
    assert (mtime + HOUR + c.offset) / HOUR == (mtime + c.offset) / HOUR + 1;
  }

  lemma {:induction false} StatFiles(c: Config, s: State, answers: bool, t: State)
    requires FilesInv(c, s) && IsStep(c, s, CleanStat(answers), t)
    ensures FilesInv(c, t)
  {
    assert Items(t) == Items(s);
    var path := s.cleaner.todo[0];
    if path != None && IsAged(s, path) {
      AgedIsPast(c, s, path.value);
    }
    QuietFiles(c, s, t);
  }

  lemma {:induction false} RemoveFiles(c: Config, s: State, removes: bool, t: State)
    requires FilesInv(c, s) && IsStep(c, s, CleanRemove(removes), t)
    ensures FilesInv(c, t)
  {
    assert Items(t) == Items(s);
    forall i | 0 <= i < |Items(t)|
      ensures PlacedItem(t.disk, Items(t)[i])
      ensures HasPath(Items(t)[i]) ==> OldIfGone(c, t, PathOf(Items(t)[i]))
    {
      assert PlacedItem(s.disk, Items(s)[i]);
      assert HasPath(Items(s)[i]) ==> OldIfGone(c, s, PathOf(Items(s)[i]));
    }
  }

  lemma {:induction false} InsertFiles(c: Config, s: State, ok: bool, times: seq<Instant>, t: State)
    requires FilesInv(c, s) && IsInsert(s, ok, times, t)
    ensures FilesInv(c, t)
  {
    assert Items(t) <= Items(s) by {
      if ok {
        assert Items(t) == Items(s);
      } else if s.phase.attempt + 1 >= MAX_RETRIES {
        assert Items(t) == s.log;
      }
    }
    QuietFiles(c, s, t);
  }

  lemma {:induction false} FilesStep(c: Config, s: State, l: Label, t: State)
    requires ConfigOk(c) && FilesInv(c, s) && IsStep(c, s, l, t)
    ensures FilesInv(c, t)
  {
    match l
    case TakeSkipped => SkippedFiles(c, s, t);
    case TakeWritten(fault, syncs) => WrittenFiles(c, s, fault, syncs, t);
    case SyncPool(failing) => SyncPoolFiles(c, s, failing, t);
    case Insert(ok, times) => InsertFiles(c, s, ok, times, t);
    case CloseFiles(failing) => CloseFilesFiles(c, s, failing, t);
    case Advance(now) => AdvanceFiles(c, s, now, t);
    case CleanStat(answers) => StatFiles(c, s, answers, t);
    case CleanRemove(removes) => RemoveFiles(c, s, removes, t);
    case _ => QuietStep(c, s, l, t);
  }

  predicate IsQuiet(l: Label) {
    l.Submit? || l.CountSubmitted? || l.Receive? || l.ReceiveClosed? || l.Tick? || l.CloseChannel? || l.CleanSelect?
    || l.CleanDelete? || l.CleanCount? || ChangesProjects(l)
  }

  lemma {:induction false} QuietStep(c: Config, s: State, l: Label, t: State)
    requires FilesInv(c, s) && IsStep(c, s, l, t) && IsQuiet(l)
    ensures FilesInv(c, t)
  {
    QuietLeaves(c, s, l, t);
    assert Items(t) == Items(s);
    QuietFiles(c, s, t);
  }

  /** What a quiet step leaves as it was. */
  lemma {:induction false} QuietLeaves(c: Config, s: State, l: Label, t: State)
    requires IsStep(c, s, l, t) && IsQuiet(l)
    ensures t.pool == s.pool && t.disk == s.disk && t.log == s.log && t.batch == s.batch
    ensures t.now == s.now && t.syncFailed == s.syncFailed && t.flushLate == s.flushLate
    ensures (t.phase.Inserting? ==> s.phase.Inserting?) && (t.phase.Closed? ==> s.phase.Closed?)
    ensures CleanerPast(c, s) ==> CleanerPast(c, t)
  {
    if l.CleanSelect? || l.CleanDelete? || l.CleanCount? {
      CleanerLeaves(c, s, l, t);
    } else if ChangesProjects(l) {
      assert t == ChangeProjects(c, s, l);
    } else {
      assert t.now == s.now && t.cleaner == s.cleaner;
    }
  }

  lemma {:induction false} CleanerLeaves(c: Config, s: State, l: Label, t: State)
    requires IsStep(c, s, l, t) && (l.CleanSelect? || l.CleanDelete? || l.CleanCount?)
    ensures t.pool == s.pool && t.disk == s.disk && t.log == s.log && t.batch == s.batch && t.phase == s.phase
    ensures t.now == s.now && t.syncFailed == s.syncFailed && t.flushLate == s.flushLate
    ensures CleanerPast(c, s) ==> CleanerPast(c, t)
  {
  }
}
