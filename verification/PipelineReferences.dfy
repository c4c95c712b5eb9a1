/** What refers to a capture file: the index, the batch, and the entries that may still be written to it. */
module PipelineReferences {
  import opened Json
  import opened Calendar
  import opened CaptureEntry
  import opened CaptureStore
  import opened CaptureWriter
  import opened CapturePipeline
  import opened PipelineFlow
  import opened PipelineGuarantees

  predicate WritesTo(e: Entry, path: RelPath) {
    !e.bodySkipped && e.projectId == path.project
  }

  /** An entry for the path's project may still come, or is on its way. */
  predicate Pending(s: State, path: RelPath) {
    || !s.closing
    || (exists k :: 0 <= k < |s.queue| && WritesTo(s.queue[k], path))
    || (s.phase.InHand? && WritesTo(s.phase.entry, path))
  }

  predicate MayBeWritten(c: Config, s: State, path: RelPath) {
    path.hour >= HourOf(s.now, c.offset) && Pending(s, path)
  }

  /** Neither the index nor the batch refers to the path, and it will not be written to again. */
  predicate Unreferenced(c: Config, s: State, path: RelPath) {
    NotStored(s, path) && NotBatched(s, path) && !MayBeWritten(c, s, path)
  }

  lemma {:induction false} UnreferencedWritten(c: Config, s: State, fault: Fault, syncs: bool, t: State, path: RelPath)
    requires Unreferenced(c, s, path) && IsWrite(c, s, fault, syncs, t)
    ensures Unreferenced(c, t, path)
  {
    var e := s.phase.entry;
    var p, line := BuildRelPath(e.projectId, s.now, c.offset), MarshalJsonl(c.codec, e, c.stamp(s.now));
    var w := Write(s.pool, s.disk, p, line, s.now, fault, syncs);
    assert p != path;
    if w.place != None {
      PlaceIsPath(s.pool, s.disk, p, line, s.now, fault, syncs, w);
    }
    UnreferencedAfterWrite(c, s, p, line, w, t, path);
  }

  lemma {:induction false} UnreferencedAfterWrite(c: Config, s: State, p: RelPath, line: seq<char>, w: WriteResult,
                                                  t: State, path: RelPath)
    requires Unreferenced(c, s, path) && s.phase.InHand? && t == AfterWrite(c, s, line, w) && p != path
    requires w.place != None ==> w.place.value.path == p
    ensures Unreferenced(c, t, path)
  {
    assert t.table == s.table && t.queue == s.queue && t.now == s.now;
    if w.place != None {
      var item := Item(WrittenRecord(s.phase.entry, w.place.value), s.phase.src, line, s.now);
      assert t.batch == s.batch + [item] && item.rec.filePath == Some(p);
    }
  }

  lemma {:induction false} UnreferencedInsert(c: Config, s: State, ok: bool, times: seq<Instant>, t: State,
                                              path: RelPath)
    requires Unreferenced(c, s, path) && IsInsert(s, ok, times, t)
    ensures Unreferenced(c, t, path)
  {
    if ok {
      var rows := RowsFrom(Records(s.batch), times, |s.log| + 1);
      assert t.table == s.table + rows;
      assert forall k :: 0 <= k < |rows| ==> rows[k].rec == s.batch[k].rec;
    }
  }

  lemma {:induction false} UnreferencedDelete(c: Config, s: State, deletes: bool, t: State, path: RelPath)
    requires Unreferenced(c, s, path) && IsStep(c, s, CleanDelete(deletes), t)
    ensures Unreferenced(c, t, path)
  {
    if deletes {
      KeptMembers(s.table, s.cleaner.project, s.cleaner.before);
      forall k | 0 <= k < |t.table|
        ensures t.table[k].rec.filePath != Some(path)
      {
        assert t.table[k] in s.table;
        var j :| 0 <= j < |s.table| && s.table[j] == t.table[k];
      }
    }
  }

  lemma {:induction false} UnreferencedReceive(c: Config, s: State, t: State, path: RelPath)
    requires Unreferenced(c, s, path) && IsStep(c, s, Receive, t)
    ensures Unreferenced(c, t, path)
  {
    forall k | 0 <= k < |t.queue|
      ensures t.queue[k] == s.queue[k + 1]
    {
    }
  }

  /** Steps that leave index and batch alone, and bring no entry nearer to the batch. */
  lemma {:induction false} UnreferencedFrame(c: Config, s: State, t: State, path: RelPath)
    requires Unreferenced(c, s, path) && t.table == s.table && s.now <= t.now
    requires forall k :: 0 <= k < |t.batch| ==>
               t.batch[k].rec.filePath == None || (k < |s.batch| && t.batch[k] == s.batch[k])
    requires Pending(t, path) ==> Pending(s, path)
    ensures Unreferenced(c, t, path)
  {
    assert HourOf(s.now, c.offset) <= HourOf(t.now, c.offset);
  }

  lemma {:induction false} UnreferencedStep(c: Config, s: State, l: Label, t: State, path: RelPath)
    requires Unreferenced(c, s, path) && IsStep(c, s, l, t)
    ensures Unreferenced(c, t, path)
  {
    if l.Receive? {
      UnreferencedReceive(c, s, t, path);
    } else if l.TakeWritten? {
      UnreferencedWritten(c, s, l.fault, l.syncs, t, path);
    } else if l.Insert? {
      UnreferencedInsert(c, s, l.ok, l.times, t, path);
    } else if l.CleanDelete? {
      UnreferencedDelete(c, s, l.deletes, t, path);
    } else {
      UnreferencedOther(c, s, l, t, path);
    }
  }

  lemma {:induction false} UnreferencedOther(c: Config, s: State, l: Label, t: State, path: RelPath)
    requires Unreferenced(c, s, path) && IsStep(c, s, l, t)
    requires !l.TakeWritten? && !l.Insert? && !l.CleanDelete? && !l.Receive?
    ensures Unreferenced(c, t, path)
  {
    UnreferencedFrame(c, s, t, path);
  }

  /** What nothing refers to is never referred to again. */
  lemma {:induction false} UnreferencedAlways(c: Config, s: State, run: seq<Label>, t: State, path: RelPath)
    requires Unreferenced(c, s, path) && Steps(c, s, run, t)
    ensures Unreferenced(c, t, path)
    decreases |run|
  {
    if run != [] {
      var u := Apply(c, s, run[0]);
      UnreferencedStep(c, s, run[0], u, path);
      UnreferencedAlways(c, u, run[1..], t, path);
    }
  }

  /**
   The cleaner leaves no dangling reference. At the moment it removes a file in a trusted state no stored and no batched
   record refers to it. When that is so, none does in any later state, trusted or not; and the path never gets
   a file again.
   */
  lemma {:induction false} RemovalIsSafe(c: Config, start: nat, run: seq<Label>, s: State, later: seq<Label>, t: State)
    requires Reached(c, start, run, s) && s.cleaner.Unused? && s.cleaner.path != None
    requires Steps(c, Apply(c, s, CleanRemove(true)), later, t)
    ensures var path := s.cleaner.path.value;
            path !in t.disk.names
            && (Trusted(s) ==> NotStored(s, path) && NotBatched(s, path))
            && (NotStored(s, path) && NotBatched(s, path) ==> NotStored(t, path) && NotBatched(t, path))
  {
    ReachedInv(c, start, run, s);
    var path, u := s.cleaner.path.value, Apply(c, s, CleanRemove(true));
    InvStep(c, s, CleanRemove(true), u);
    GoneForGood(c, u, path, later, t);
    if NotStored(s, path) && NotBatched(s, path) {
      UnreferencedStep(c, s, CleanRemove(true), u, path);
      UnreferencedAlways(c, u, later, t, path);
    }
  }
}
