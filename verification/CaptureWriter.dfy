/** Appending a line through the pool: what a write leaves behind, whether it succeeds or fails on the way. */
module CaptureWriter {
  import opened Lines
  import opened Json
  import opened Calendar
  import opened CaptureStore
  import opened CaptureDisk
  import opened FilePool

  /** Where a write can fail; `WriteFails(n)` has put `n` bytes of the line into the file. */
  datatype Fault = NoFault | MkdirFails | OpenFails | SeekFails | WriteFails(n: nat)

  datatype Place = Place(path: RelPath, offset: nat)

  datatype WriteResult = WriteResult(pool: Pool, disk: Disk, place: Option<Place>, lost: bool)

  /** The hour the server's clock, `offset` seconds off UTC, shows. */
  function HourOf(t: nat, offset: nat): nat {
    (t + offset) / HOUR
  }

  function BuildRelPath(project: int, now: nat, offset: nat): RelPath {
    RelPath(project, HourOf(now, offset))
  }

  function Prefix(s: Bytes, n: nat): Bytes {
    if n <= |s| then s[..n] else s
  }

  /** Seeking and writing once the pool has answered with `r`. */
  function WriteTo(r: GetResult, path: RelPath, line: Bytes, now: nat, fault: Fault): WriteResult {
    if r.handle == None || fault.SeekFails? || r.handle.value.ino >= |r.disk.inodes| then
      WriteResult(r.pool, r.disk, None, r.lost)
    else
      var ino := r.handle.value.ino;
      if fault.WriteFails? then
        WriteResult(r.pool, Append(r.disk, ino, Prefix(line + [LF], fault.n), now), None, r.lost)
      else
        WriteResult(r.pool, Append(r.disk, ino, line + [LF], now), Some(Place(path, |r.disk.inodes[ino].content|)),
                    r.lost)
  }

  function Write(p: Pool, d: Disk, path: RelPath, line: Bytes, now: nat, fault: Fault, syncs: bool): WriteResult {
    if fault.MkdirFails? then WriteResult(p, d, None, false)
    else WriteTo(PoolGet(p, d, path, now, !fault.OpenFails?, syncs), path, line, now, fault)
  }

  /** Every handle leads to the inode created under its path, and to the one its path names if there still is one. */
  ghost predicate HandlesOk(order: seq<Handle>, d: Disk) {
    forall k :: 0 <= k < |order| ==>
      order[k].ino < |d.inodes| && d.inodes[order[k].ino].path == order[k].path
      && (order[k].path in d.names ==> d.names[order[k].path] == order[k].ino)
  }

  /** Files were last written in the hour they are named after. */
  ghost predicate Timed(d: Disk, now: nat, offset: nat) {
    forall i :: 0 <= i < |d.inodes| ==>
      d.inodes[i].mtime <= now && HourOf(d.inodes[i].mtime, offset) == d.inodes[i].path.hour
  }

  /** A file without a name belongs to an hour that is over. */
  ghost predicate NamedNow(order: seq<Handle>, d: Disk, now: nat, offset: nat) {
    forall k :: 0 <= k < |order| ==> order[k].path in d.names || order[k].path.hour < HourOf(now, offset)
  }

  ghost predicate FilesOk(p: Pool, d: Disk, now: nat, offset: nat) {
    PoolOk(p) && Sound(d) && HandlesOk(p.order, d) && Timed(d, now, offset) && NamedNow(p.order, d, now, offset)
  }

  lemma {:induction false} HandlesGrow(order: seq<Handle>, d: Disk, e: Disk)
    requires HandlesOk(order, d) && Sound(d) && Sound(e) && Grows(d, e)
    requires forall k :: 0 <= k < |order| && order[k].path in e.names ==> order[k].path in d.names
    ensures HandlesOk(order, e)
  {
    forall k | 0 <= k < |order|
      ensures order[k].ino < |e.inodes| && e.inodes[order[k].ino].path == order[k].path
           && (order[k].path in e.names ==> e.names[order[k].path] == order[k].ino)
    {
      assert FileGrows(d.inodes[order[k].ino], e.inodes[order[k].ino]);
    }
  }

  lemma {:induction false} AppendTimed(d: Disk, ino: nat, bytes: Bytes, now: nat, offset: nat)
    requires Timed(d, now, offset) && ino < |d.inodes| && d.inodes[ino].path.hour == HourOf(now, offset)
    ensures Timed(Append(d, ino, bytes, now), now, offset)
  {
  }

  /** Only the looked-up path can have come into existence, and it names the file of the returned handle. */
  ghost predicate Looked(d: Disk, path: RelPath, r: GetResult) {
    && Grows(d, r.disk)
    && (forall q :: q in r.disk.names ==> q in d.names || q == path)
    && (r.handle != None ==> path in r.disk.names && r.disk.names[path] == r.handle.value.ino < |r.disk.inodes|)
  }

  /** What a lookup does to the files, for a path of the current hour. */
  lemma {:induction false} PoolGetFiles(p: Pool, d: Disk, path: RelPath, now: nat, offset: nat, opens: bool,
                                        syncs: bool, r: GetResult)
    requires FilesOk(p, d, now, offset) && path.hour == HourOf(now, offset)
    requires r == PoolGet(p, d, path, now, opens, syncs)
    ensures FilesOk(r.pool, r.disk, now, offset) && Looked(d, path, r)
  {
    PoolGetOk(p, d, path, now, opens, syncs, r);
    var i := IndexOf(p.order, path);
    if i < |p.order| {
      MovedFiles(p, d, i, r.pool.order, now, offset);
    } else if opens {
      PoolMissFiles(p, d, path, now, offset, syncs, r);
    }
  }

  lemma {:induction false} MovedFiles(p: Pool, d: Disk, i: nat, o: seq<Handle>, now: nat, offset: nat)
    requires HandlesOk(p.order, d) && NamedNow(p.order, d, now, offset)
    requires i < |p.order| && o == MoveToFront(p.order, i)
    ensures HandlesOk(o, d) && NamedNow(o, d, now, offset)
    ensures forall q :: InPool(p.order, q) ==> InPool(o, q)
  {
    MovedFrom(p.order, i, o);
    forall q | InPool(p.order, q)
      ensures InPool(o, q)
    {
      var k :| 0 <= k < |p.order| && p.order[k].path == q;
      assert o[Target(i, k)].path == q;
    }
  }

  lemma {:induction false} PoolMissFiles(p: Pool, d: Disk, path: RelPath, now: nat, offset: nat, syncs: bool,
                                         r: GetResult)
    requires FilesOk(p, d, now, offset) && path.hour == HourOf(now, offset)
    requires IndexOf(p.order, path) == |p.order| && r == PoolMiss(p, d, path, now, syncs)
    ensures Sound(r.disk) && HandlesOk(r.pool.order, r.disk) && Timed(r.disk, now, offset)
    ensures NamedNow(r.pool.order, r.disk, now, offset) && Looked(d, path, r)
  {
    var created := OpenFile(d, path, now);
    var room := MakeRoom(p, created, syncs);
    OpenedFiles(p, d, path, now, offset, created);
    MakeRoomFiles(p, d, created, now, offset, syncs, room);
    HandlePushed(r.handle.value, room.pool.order, room.disk, now, offset);
  }

  lemma {:induction false} OpenedFiles(p: Pool, d: Disk, path: RelPath, now: nat, offset: nat, e: Disk)
    requires FilesOk(p, d, now, offset) && path.hour == HourOf(now, offset)
    requires IndexOf(p.order, path) == |p.order| && e == OpenFile(d, path, now)
    ensures FilesOk(p, e, now, offset) && Grows(d, e)
    ensures path in e.names && e.names[path] == InodeOf(d, path) < |e.inodes|
  {
    OpenFileGrows(d, path, now);
    HandlesGrow(p.order, d, e);
  }

  lemma {:induction false} MakeRoomFiles(p: Pool, d: Disk, c: Disk, now: nat, offset: nat, syncs: bool, room: PoolDisk)
    requires FilesOk(p, c, now, offset) && Grows(d, c) && room == MakeRoom(p, c, syncs)
    ensures FilesOk(room.pool, room.disk, now, offset) && Grows(d, room.disk)
    ensures room.disk.names == c.names && |room.disk.inodes| == |c.inodes|
  {
    MakeRoomKeeps(p, c, syncs);
    if Full(p) {
      var back := p.order[|p.order| - 1];
      SyncGrows(c, back.ino);
      GrowsTransitive(d, c, Sync(c, back.ino));
      HandlesGrow(p.order, c, Sync(c, back.ino));
    }
  }

  lemma {:induction false} HandlePushed(handle: Handle, order: seq<Handle>, d: Disk, now: nat, offset: nat)
    requires Sound(d) && HandlesOk(order, d) && NamedNow(order, d, now, offset)
    requires handle.path in d.names && d.names[handle.path] == handle.ino
    ensures HandlesOk([handle] + order, d) && NamedNow([handle] + order, d, now, offset)
  {
    var o := [handle] + order;
    assert forall k :: 0 < k < |o| ==> o[k] == order[k - 1];
  }

  /** A write only ever adds to files; one that succeeds has put the whole line where it says. */
  lemma {:induction false} WriteFiles(p: Pool, d: Disk, path: RelPath, line: Bytes, now: nat, offset: nat, fault: Fault,
                                      syncs: bool, w: WriteResult)
    requires FilesOk(p, d, now, offset) && path.hour == HourOf(now, offset)
    requires w == Write(p, d, path, line, now, fault, syncs)
    ensures FilesOk(w.pool, w.disk, now, offset) && Grows(d, w.disk)
    ensures forall q :: q in w.disk.names ==> q in d.names || q == path
    ensures w.place != None ==> Written(d, w.disk, path, w.place.value, line, now)
  {
    var r := PoolGet(p, d, path, now, !fault.OpenFails?, syncs);
    PoolGetFiles(p, d, path, now, offset, !fault.OpenFails?, syncs, r);
    if !fault.MkdirFails? && r.handle != None && !fault.SeekFails? {
      var ino := r.handle.value.ino;
      var bytes := if fault.WriteFails? then Prefix(line + [LF], fault.n) else line + [LF];
      AppendedFiles(r.pool, d, r.disk, ino, bytes, now, offset, w.disk);
      LineAtAppended(r.disk.inodes[ino].content, line);
      if path in d.names && d.names[path] < |d.inodes| {
        assert FileGrows(d.inodes[d.names[path]], r.disk.inodes[ino]);
      }
    }
  }

  /** A write that fails before its first byte leaves the files as the lookup of its handle did. */
  lemma {:induction false} UnwrittenLeavesFiles(p: Pool, d: Disk, path: RelPath, line: Bytes, now: nat, syncs: bool)
    ensures Write(p, d, path, line, now, WriteFails(0), syncs).disk == PoolGet(p, d, path, now, true, syncs).disk
    ensures Write(p, d, path, line, now, SeekFails, syncs).disk == PoolGet(p, d, path, now, true, syncs).disk
    ensures PoolGet(p, d, path, now, false, syncs).handle == None ==>
      Write(p, d, path, line, now, OpenFails, syncs).disk == d
    ensures Write(p, d, path, line, now, MkdirFails, syncs).disk == d
  {
    var r := PoolGet(p, d, path, now, true, syncs);
    if r.handle != None && r.handle.value.ino < |r.disk.inodes| {
      AppendNothing(r.disk, r.handle.value.ino, now);
    }
  }

  /** A write that fails later leaves the bytes written until then, and returns no place. */
  lemma {:induction false} FailedWriteLeavesPart(r: GetResult, path: RelPath, line: Bytes, now: nat, n: nat)
    requires r.handle != None && r.handle.value.ino < |r.disk.inodes| && n <= |line| + 1
    ensures var w, ino := WriteTo(r, path, line, now, WriteFails(n)), r.handle.value.ino;
            w.place == None && |w.disk.inodes| == |r.disk.inodes| && w.disk.names == r.disk.names
            && w.disk.inodes[ino].content == r.disk.inodes[ino].content + (line + "\n")[..n]
            && w.disk.inodes[ino].synced == r.disk.inodes[ino].synced
            && forall i :: 0 <= i < |r.disk.inodes| && i != ino ==> w.disk.inodes[i] == r.disk.inodes[i]
  {
    assert [LF] == "\n";
  }

  lemma {:induction false} AppendedFiles(p: Pool, d: Disk, c: Disk, ino: nat, bytes: Bytes, now: nat, offset: nat,
                                         e: Disk)
    requires FilesOk(p, c, now, offset) && Grows(d, c) && ino < |c.inodes|
    requires c.inodes[ino].path.hour == HourOf(now, offset) && e == Append(c, ino, bytes, now)
    ensures FilesOk(p, e, now, offset) && Grows(d, e) && Grows(c, e)
  {
    AppendGrows(c, ino, bytes, now);
    GrowsTransitive(d, c, e);
    HandlesGrow(p.order, c, e);
    AppendTimed(c, ino, bytes, now, offset);
  }

  /** `line` now stands at `place`, behind everything the file held before. */
  ghost predicate Written(d: Disk, e: Disk, path: RelPath, place: Place, line: Bytes, now: nat) {
    && place.path == path
    && path in e.names && e.names[path] < |e.inodes|
    && LineAt(e.inodes[e.names[path]].content, place.offset, line)
    && e.inodes[e.names[path]].mtime == now
    && (path in d.names && d.names[path] < |d.inodes| ==> |d.inodes[d.names[path]].content| <= place.offset)
  }

  // Durability

  predicate InPool(order: seq<Handle>, path: RelPath) {
    exists k :: 0 <= k < |order| && order[k].path == path
  }

  lemma {:induction false} WriteLostIff(p: Pool, d: Disk, path: RelPath, line: Bytes, now: nat, fault: Fault,
                                        syncs: bool)
    requires PoolOk(p)
    ensures Write(p, d, path, line, now, fault, syncs).lost <==>
      !syncs && !fault.MkdirFails? && !fault.OpenFails? && |p.order| == p.capacity && !InPool(p.order, path)
  {
    LostIff(p, d, path, now, !fault.OpenFails?, syncs);
  }

  predicate SyncedTo(d: Disk, path: RelPath, end: nat) {
    path in d.names && d.names[path] < |d.inodes| && end <= d.inodes[d.names[path]].synced
  }

  /** The bytes before `end` are on disk, or will be with the next sync of the pool. */
  predicate Covered(order: seq<Handle>, d: Disk, path: RelPath, end: nat) {
    path in d.names && d.names[path] < |d.inodes| && end <= |d.inodes[d.names[path]].content|
    && (SyncedTo(d, path, end) || InPool(order, path))
  }

  lemma {:induction false} SyncedGrows(d: Disk, e: Disk, path: RelPath, end: nat)
    requires SyncedTo(d, path, end) && Grows(d, e)
    ensures SyncedTo(e, path, end)
  {
    assert FileGrows(d.inodes[d.names[path]], e.inodes[d.names[path]]);
  }

  /** Nothing that was covered before a lookup is left uncovered by it: an evicted file is synced first. */
  lemma {:induction false} PoolGetCovers(p: Pool, d: Disk, path: RelPath, now: nat, offset: nat, opens: bool,
                                         syncs: bool, r: GetResult, q: RelPath, end: nat)
    requires FilesOk(p, d, now, offset) && path.hour == HourOf(now, offset)
    requires r == PoolGet(p, d, path, now, opens, syncs) && !r.lost
    requires Covered(p.order, d, q, end)
    ensures Covered(r.pool.order, r.disk, q, end)
  {
    var i := IndexOf(p.order, path);
    if i < |p.order| {
      MovedFiles(p, d, i, r.pool.order, now, offset);
    } else if opens {
      PoolMissCovers(p, d, path, now, offset, syncs, r, q, end);
    }
  }

  lemma {:induction false} PoolMissCovers(p: Pool, d: Disk, path: RelPath, now: nat, offset: nat, syncs: bool,
                                          r: GetResult, q: RelPath, end: nat)
    requires FilesOk(p, d, now, offset) && path.hour == HourOf(now, offset)
    requires IndexOf(p.order, path) == |p.order| && r == PoolMiss(p, d, path, now, syncs) && !r.lost
    requires Covered(p.order, d, q, end)
    ensures Covered(r.pool.order, r.disk, q, end)
  {
    var created := OpenFile(d, path, now);
    OpenedFiles(p, d, path, now, offset, created);
    assert FileGrows(d.inodes[d.names[q]], created.inodes[d.names[q]]);
    var room := MakeRoom(p, created, syncs);
    MakeRoomCovers(p, created, syncs, room, q, end);
    PushCovers(r.handle.value, room.pool.order, room.disk, q, end);
  }

  lemma {:induction false} PushCovers(handle: Handle, order: seq<Handle>, d: Disk, q: RelPath, end: nat)
    requires Covered(order, d, q, end)
    ensures Covered([handle] + order, d, q, end)
  {
    if !SyncedTo(d, q, end) {
      var k :| 0 <= k < |order| && order[k].path == q;
      assert ([handle] + order)[k + 1].path == q;
    }
  }

  lemma {:induction false} MakeRoomCovers(p: Pool, d: Disk, syncs: bool, room: PoolDisk, q: RelPath, end: nat)
    requires PoolOk(p) && Sound(d) && HandlesOk(p.order, d)
    requires room == MakeRoom(p, d, syncs) && (syncs || !Full(p))
    requires Covered(p.order, d, q, end)
    ensures Covered(room.pool.order, room.disk, q, end)
  {
    if Full(p) {
      var n := |p.order| - 1;
      SyncGrows(d, p.order[n].ino);
      assert FileGrows(d.inodes[d.names[q]], room.disk.inodes[d.names[q]]);
      if !SyncedTo(d, q, end) {
        var k :| 0 <= k < |p.order| && p.order[k].path == q;
        if k < n {
          assert room.pool.order[k].path == q;
        }
      }
    }
  }

  lemma {:induction false} WriteCovers(p: Pool, d: Disk, path: RelPath, line: Bytes, now: nat, offset: nat,
                                       fault: Fault, syncs: bool, w: WriteResult, q: RelPath, end: nat)
    requires FilesOk(p, d, now, offset) && path.hour == HourOf(now, offset)
    requires w == Write(p, d, path, line, now, fault, syncs) && !w.lost
    requires Covered(p.order, d, q, end)
    ensures Covered(w.pool.order, w.disk, q, end)
  {
    if !fault.MkdirFails? {
      var r := PoolGet(p, d, path, now, !fault.OpenFails?, syncs);
      PoolGetFiles(p, d, path, now, offset, !fault.OpenFails?, syncs, r);
      PoolGetCovers(p, d, path, now, offset, !fault.OpenFails?, syncs, r, q, end);
      if r.handle != None && !fault.SeekFails? {
        var ino := r.handle.value.ino;
        var bytes := if fault.WriteFails? then Prefix(line + [LF], fault.n) else line + [LF];
        AppendedFiles(r.pool, d, r.disk, ino, bytes, now, offset, w.disk);
        assert FileGrows(r.disk.inodes[r.disk.names[q]], w.disk.inodes[r.disk.names[q]]);
      }
    }
  }

  lemma {:induction false} WrittenIsCovered(p: Pool, d: Disk, path: RelPath, line: Bytes, now: nat, offset: nat,
                                            fault: Fault, syncs: bool, w: WriteResult)
    requires FilesOk(p, d, now, offset) && path.hour == HourOf(now, offset)
    requires w == Write(p, d, path, line, now, fault, syncs) && w.place != None
    ensures Covered(w.pool.order, w.disk, path, w.place.value.offset + |line| + 1)
  {
    var r := PoolGet(p, d, path, now, !fault.OpenFails?, syncs);
    WriteFiles(p, d, path, line, now, offset, fault, syncs, w);
    PoolGetOk(p, d, path, now, !fault.OpenFails?, syncs, r);
    assert w.pool.order[0].path == path;
  }

  // Syncing the pool

  predicate NoneFails(order: seq<Handle>, failing: set<nat>) {
    forall k :: 0 <= k < |order| ==> order[k].fd !in failing
  }

  lemma {:induction false} SyncHandlesGrows(d: Disk, order: seq<Handle>, failing: set<nat>)
    requires Sound(d)
    ensures Sound(SyncHandles(d, order, failing)) && Grows(d, SyncHandles(d, order, failing))
    ensures SyncHandles(d, order, failing).names == d.names
    ensures var e := SyncHandles(d, order, failing);
            forall i :: 0 <= i < |d.inodes| ==>
              e.inodes[i].content == d.inodes[i].content && e.inodes[i].mtime == d.inodes[i].mtime
    decreases |order|
  {
    if order != [] {
      var e := SyncIf(d, order[0].ino, order[0].fd !in failing);
      if order[0].ino < |d.inodes| {
        SyncGrows(d, order[0].ino);
      }
      SyncHandlesGrows(e, order[1..], failing);
      GrowsTransitive(d, e, SyncHandles(e, order[1..], failing));
    }
  }

  /** After a sync of the pool in which no file failed, what was covered is on disk. */
  lemma {:induction false} SyncCovers(d: Disk, order: seq<Handle>, failing: set<nat>, q: RelPath, end: nat)
    requires Sound(d) && HandlesOk(order, d) && NoneFails(order, failing)
    requires Covered(order, d, q, end)
    ensures SyncedTo(SyncHandles(d, order, failing), q, end)
    decreases |order|
  {
    SyncHandlesGrows(d, order, failing);
    if SyncedTo(d, q, end) {
      SyncedGrows(d, SyncHandles(d, order, failing), q, end);
    } else {
      var k :| 0 <= k < |order| && order[k].path == q;
      var rest := order[1..];
      var e := SyncIf(d, order[0].ino, order[0].fd !in failing);
      SyncGrows(d, order[0].ino);
      assert FileGrows(d.inodes[d.names[q]], e.inodes[d.names[q]]);
      SyncHandlesGrows(e, rest, failing);
      if k == 0 {
        SyncedGrows(e, SyncHandles(e, rest, failing), q, end);
      } else {
        assert rest[k - 1].path == q;
        HandlesGrow(order, d, e);
        SyncCovers(e, rest, failing, q, end);
      }
    }
  }
}
