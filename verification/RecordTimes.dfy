/** The times that records carry, against those of their lines and of each other. */
module RecordTimes {
  import opened Calendar
  import opened CaptureStore
  import opened CapturePipeline
  import opened PipelineFlow
  import opened PipelineFiles
  import opened PipelineGuarantees

  /** No record is stamped later: the clock, or the start of the attempt under way. */
  function LatestStamp(s: State): nat {
    if s.phase.Inserting? then s.phase.since else s.now
  }

  predicate RowTimed(s: State, r: Row) {
    0 < r.id <= |s.log| && s.log[r.id - 1].writtenAt <= r.createdAt <= LatestStamp(s)
  }

  predicate RowsTimed(s: State) {
    && (forall r :: r in s.table ==> RowTimed(s, r))
    && (forall q, r :: q in s.table && r in s.table && q.id < r.id ==> q.createdAt <= r.createdAt)
  }

  /** Every line of a batch to be inserted was written before the attempt. */
  predicate BatchWritten(s: State) {
    s.phase.Inserting? ==> forall k :: 0 <= k < |s.batch| ==> s.batch[k].writtenAt <= s.phase.since
  }

  predicate TimesOk(s: State) {
    LatestStamp(s) <= s.now && RowsTimed(s) && BatchWritten(s)
  }

  /** An attempt begins with a sync or a failed attempt, and only an attempt ends it. */
  lemma {:induction false} AttemptLeaves(c: Config, s: State, l: Label, t: State)
    requires IsStep(c, s, l, t) && !l.Insert?
    ensures s.phase.Inserting? ==> t.phase == s.phase && t.batch == s.batch
    ensures !s.phase.Inserting? && t.phase.Inserting? ==>
      l.SyncPool? && t.phase.since == s.now == t.now && t.batch == s.batch
  {
    if ChangesProjects(l) {
      assert t == ChangeProjects(c, s, l);
    } else if IsCleaning(l) {
      assert t == Clean(c, s, l);
    } else if l.TakeWritten? {
      assert t == TakeWrite(c, s, l.fault, l.syncs);
    } else {
      AttemptElsewhere(c, s, l, t);
    }
  }

  lemma {:induction false} AttemptElsewhere(c: Config, s: State, l: Label, t: State)
    requires IsStep(c, s, l, t) && !l.Insert? && !l.TakeWritten? && !IsCleaning(l) && !ChangesProjects(l)
    ensures s.phase.Inserting? ==> t.phase == s.phase && t.batch == s.batch
    ensures !s.phase.Inserting? && t.phase.Inserting? ==>
      l.SyncPool? && t.phase.since == s.now == t.now && t.batch == s.batch
  {
  }

  lemma {:induction false} TimesElsewhere(c: Config, s: State, l: Label, t: State)
    requires TimesOk(s) && BatchTimed(s) && IsStep(c, s, l, t) && !l.Insert?
    ensures TimesOk(t)
  {
    StepLeaves(c, s, l, t);
    AttemptLeaves(c, s, l, t);
    if l.CleanDelete? {
      assert t == Clean(c, s, l);
      KeptMembers(s.table, s.cleaner.project, s.cleaner.before);
    }
    assert forall r :: r in t.table ==> r in s.table && RowTimed(s, r);
  }

  predicate InsertedNow(s: State, times: seq<Instant>, rows: seq<Row>) {
    && s.phase.Inserting? && |rows| == |times| == |s.batch| && Stamped(times, s.phase.since, s.now)
    && forall k :: 0 <= k < |rows| ==> rows[k].id == |s.log| + 1 + k && rows[k].createdAt == times[k]
  }

  lemma {:induction false} NewRowTimed(s: State, times: seq<Instant>, rows: seq<Row>, r: Row)
    requires TimesOk(s) && InsertedNow(s, times, rows) && r in rows
    ensures |s.log| < r.id <= |s.log| + |s.batch| && s.phase.since <= r.createdAt <= s.now
    ensures s.batch[r.id - |s.log| - 1].writtenAt <= r.createdAt
  {
    var k :| 0 <= k < |rows| && rows[k] == r;
  }

  lemma {:induction false} NewRowsInOrder(s: State, times: seq<Instant>, rows: seq<Row>, q: Row, r: Row)
    requires InsertedNow(s, times, rows) && q in rows && r in rows && q.id < r.id
    ensures q.createdAt <= r.createdAt
  {
    var j :| 0 <= j < |rows| && rows[j] == q;
    var k :| 0 <= k < |rows| && rows[k] == r;
  }

  lemma {:induction false} TimesInserted(s: State, times: seq<Instant>, rows: seq<Row>, t: State)
    requires TimesOk(s) && InsertedNow(s, times, rows)
    requires t.table == s.table + rows && t.log == s.log + s.batch && t.now == s.now && !t.phase.Inserting?
    ensures TimesOk(t)
  {
    forall r | r in t.table
      ensures RowTimed(t, r)
    {
      if r in s.table {
        assert RowTimed(s, r);
      } else {
        NewRowTimed(s, times, rows, r);
      }
    }
    forall q, r | q in t.table && r in t.table && q.id < r.id
      ensures q.createdAt <= r.createdAt
    {
      InsertedInOrder(s, times, rows, q, r);
    }
  }

  lemma {:induction false} InsertedInOrder(s: State, times: seq<Instant>, rows: seq<Row>, q: Row, r: Row)
    requires TimesOk(s) && InsertedNow(s, times, rows) && q in s.table + rows && r in s.table + rows && q.id < r.id
    ensures q.createdAt <= r.createdAt
  {
    if q in s.table {
      assert RowTimed(s, q);
      if r in rows {
        NewRowTimed(s, times, rows, r);
      }
    } else {
      assert r in s.table ==> RowTimed(s, r);
      NewRowTimed(s, times, rows, q);
      if r in rows {
        NewRowsInOrder(s, times, rows, q, r);
      }
    }
  }

  lemma {:induction false} TimesInsert(s: State, ok: bool, times: seq<Instant>, t: State)
    requires TimesOk(s) && BatchTimed(s) && IsInsert(s, ok, times, t) && (ok ==> Stamped(times, s.phase.since, s.now))
    ensures TimesOk(t)
  {
    if ok {
      TimesInserted(s, times, RowsFrom(Records(s.batch), times, |s.log| + 1), t);
    } else {
      assert forall r :: r in t.table ==> RowTimed(s, r);
    }
  }

  lemma {:induction false} TimesAlways(c: Config, s: State, run: seq<Label>, t: State)
    requires ConfigOk(c) && Inv(c, s) && TimesOk(s) && Steps(c, s, run, t)
    ensures Inv(c, t) && TimesOk(t)
    decreases |run|
  {
    if run != [] {
      var u := Apply(c, s, run[0]);
      InvStep(c, s, run[0], u);
      if run[0].Insert? {
        TimesInsert(s, run[0].ok, run[0].times, u);
      } else {
        TimesElsewhere(c, s, run[0], u);
      }
      TimesAlways(c, u, run[1..], t);
    }
  }

  /**
   In every run a record is stamped no earlier than its line was written and no later than now, and the records'
   times ascend with their identifiers: retries and the interleaving with the cleaner notwithstanding.
   */
  lemma {:induction false} StampedInOrder(c: Config, start: nat, run: seq<Label>, t: State, j: nat, k: nat)
    requires Reached(c, start, run, t) && j < k < |t.table|
    ensures t.table[j].createdAt <= t.table[k].createdAt
    ensures 0 < t.table[k].id <= |t.log| && t.log[t.table[k].id - 1].writtenAt <= t.table[k].createdAt <= t.now
    ensures 0 < t.table[j].id <= |t.log| && t.log[t.table[j].id - 1].writtenAt <= t.table[j].createdAt <= t.now
  {
    InvInitial(c, start);
    TimesAlways(c, Initial(c, start), run, t);
    assert t.table[j] in t.table && t.table[k] in t.table;
    assert t.table[j].id < t.table[k].id;
  }
}
