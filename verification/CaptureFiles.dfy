/** The file writer and its handle pool, updated in place over the operating system's files. */
module CaptureFiles {
  import opened Lines
  import opened Json
  import opened CaptureEntry
  import opened CaptureStore
  import opened CaptureDisk
  import opened FilePool
  import opened CaptureWriter

  /** The part of the operating system the writer uses. What a call is answered is one of its parameters. */
  class FileSystem {
    var disk: Disk
    var nextFd: nat
    var closed: seq<nat>

    constructor ()
      ensures disk == Disk(map[], []) && nextFd == 0 && closed == []
    {
      disk, nextFd, closed := Disk(map[], []), 0, [];
    }

    method OpenForAppend(path: RelPath, now: nat, opens: bool) returns (file: Option<Handle>)
      modifies this`disk, this`nextFd
      ensures !opens ==> file == None && disk == old(disk) && nextFd == old(nextFd)
      ensures opens ==> file == Some(Handle(path, old(nextFd), InodeOf(old(disk), path)))
      ensures opens ==> disk == OpenFile(old(disk), path, now) && nextFd == old(nextFd) + 1
    {
      if !opens {
        return None;
      }
      file := Some(Handle(path, nextFd, InodeOf(disk, path)));
      disk, nextFd := OpenFile(disk, path, now), nextFd + 1;
    }

    method SyncFile(file: Handle, syncs: bool)
      modifies this`disk
      ensures disk == SyncIf(old(disk), file.ino, syncs)
    {
      disk := SyncIf(disk, file.ino, syncs);
    }

    method CloseFile(file: Handle)
      modifies this`closed
      ensures closed == old(closed) + [file.fd]
    {
      closed := closed + [file.fd];
    }

    /** The time a file was last modified, if it is there. */
    method Stat(path: RelPath, answers: bool) returns (mtime: Option<nat>)
      ensures mtime == if answers && path in disk.names && disk.names[path] < |disk.inodes|
                       then Some(disk.inodes[disk.names[path]].mtime) else None
    {
      mtime := None;
      if answers && path in disk.names && disk.names[path] < |disk.inodes| {
        mtime := Some(disk.inodes[disk.names[path]].mtime);
      }
    }

    /** Removes a name; open handles keep the inode. */
    method RemoveFile(path: RelPath, removes: bool)
      modifies this`disk
      ensures disk == if removes then Remove(old(disk), path) else old(disk)
    {
      if removes {
        disk := Remove(disk, path);
      }
    }

    /** Seeks to the end; the offset returned is the size of the file. */
    method SeekEnd(file: Handle, seeks: bool) returns (offset: Option<nat>)
      ensures offset == if seeks && file.ino < |disk.inodes| then Some(|disk.inodes[file.ino].content|) else None
    {
      offset := if seeks && file.ino < |disk.inodes| then Some(|disk.inodes[file.ino].content|) else None;
    }

    /** Writes the bytes; a write that fails may have written some of them, or all. */
    method WriteFile(file: Handle, bytes: Bytes, now: nat, fault: Fault) returns (ok: bool)
      requires file.ino < |disk.inodes|
      modifies this`disk
      ensures ok == !fault.WriteFails?
      ensures disk == Append(old(disk), file.ino, if fault.WriteFails? then Prefix(bytes, fault.n) else bytes, now)
    {
      ok := !fault.WriteFails?;
      disk := Append(disk, file.ino, if ok then bytes else Prefix(bytes, fault.n), now);
    }
  }

  lemma {:induction false} SyncHandlesAppend(d: Disk, order: seq<Handle>, h: Handle, failing: set<nat>)
    ensures SyncHandles(d, order + [h], failing) == SyncIf(SyncHandles(d, order, failing), h.ino, h.fd !in failing)
    decreases |order|
  {
    if order == [] {
      assert order + [h] == [h];
    } else {
      SyncHandlesAppend(SyncIf(d, order[0].ino, order[0].fd !in failing), order[1..], h, failing);
      assert (order + [h])[1..] == order[1..] + [h];
    }
  }

  /** `items` finds exactly the handles in `order`. */
  ghost predicate Indexes(items: map<RelPath, Handle>, order: seq<Handle>) {
    && (forall k :: 0 <= k < |order| ==> order[k].path in items && items[order[k].path] == order[k])
    && (forall p {:trigger InPool(order, p)} :: p in items ==> InPool(order, p))
  }

  lemma {:induction false} PushIndexes(items: map<RelPath, Handle>, order: seq<Handle>, file: Handle)
    requires Indexes(items, order) && file.path !in items
    ensures Indexes(items[file.path := file], [file] + order)
  {
    var o := [file] + order;
    forall p | p in items[file.path := file]
      ensures InPool(o, p)
    {
      if p == file.path {
        assert o[0].path == p;
      } else {
        assert InPool(order, p);
        var k :| 0 <= k < |order| && order[k].path == p;
        assert o[k + 1].path == p;
      }
    }
  }

  lemma {:induction false} EvictIndexes(items: map<RelPath, Handle>, order: seq<Handle>, n: nat)
    requires |order| == n + 1 && Indexes(items, order) && DistinctPaths(order)
    ensures Indexes(items - {order[n].path}, order[..n])
  {
    forall p | p in items - {order[n].path}
      ensures InPool(order[..n], p)
    {
      assert InPool(order, p);
      var k :| 0 <= k < |order| && order[k].path == p;
      assert order[..n][k].path == p;
    }
  }

  lemma {:induction false} MovedIndexes(items: map<RelPath, Handle>, order: seq<Handle>, i: nat, o: seq<Handle>)
    requires Indexes(items, order) && i < |order| && o == MoveToFront(order, i)
    ensures Indexes(items, o)
  {
    MovedFrom(order, i, o);
    forall p | p in items
      ensures InPool(o, p)
    {
      assert InPool(order, p);
      var k :| 0 <= k < |order| && order[k].path == p;
      assert o[Target(i, k)].path == p;
    }
    forall k | 0 <= k < |o|
      ensures o[k].path in items && items[o[k].path] == o[k]
    {
      var j := Source(i, k);
      assert o[k] == order[j] && items[order[j].path] == order[j];
    }
  }

  class LruFilePool {
    const capacity: nat
    const files: FileSystem
    var items: map<RelPath, Handle>
    var order: seq<Handle>

    ghost function View(): Pool
      reads this, files
    {
      Pool(capacity, order, files.nextFd, files.closed)
    }

    ghost predicate Valid()
      reads this, files
    {
      PoolOk(View()) && Indexes(items, order)
    }

    constructor (capacity: nat, files: FileSystem)
      requires files.nextFd == 0 && files.closed == []
      ensures this.files == files && this.capacity == if capacity == 0 then 16 else capacity
      ensures Valid() && View() == EmptyPool(this.capacity)
    {
      this.capacity := if capacity == 0 then 16 else capacity;
      this.files := files;
      items, order := map[], [];
    }

    /**
     The handle for a path, opened if need be; a full pool gives up its least recently used one.
     `opens` and `syncs` say whether the file can be opened and an evicted one be synced.
     */
    method Get(path: RelPath, now: nat, opens: bool, syncs: bool) returns (file: Option<Handle>)
      requires Valid()
      modifies this, files
      ensures Valid()
      ensures View() == PoolGet(old(View()), old(files.disk), path, now, opens, syncs).pool
      ensures files.disk == PoolGet(old(View()), old(files.disk), path, now, opens, syncs).disk
      ensures file == PoolGet(old(View()), old(files.disk), path, now, opens, syncs).handle
    {
      if path in items {
        FoundAt(path);
        file := Some(items[path]);
        Touch(path);
        return;
      }
      file := Open(path, now, opens, syncs);
    }

    /** Moves a handle of the pool to the front of the list. */
    method Touch(path: RelPath)
      requires Valid() && IndexOf(order, path) < |order|
      modifies this`order
      ensures Valid() && order == MoveToFront(old(order), IndexOf(old(order), path))
    {
      ghost var p, i := View(), IndexOf(order, path);
      ghost var o := MoveToFront(order, i);
      MoveToFrontKeeps(p, i, o);
      MovedIndexes(items, order, i, o);
      order := MoveToFront(order, IndexOf(order, path));
      assert View() == p.(order := o);
    }

    /** Opens a file that is not in the pool and puts it at the front. */
    method Open(path: RelPath, now: nat, opens: bool, syncs: bool) returns (file: Option<Handle>)
      requires Valid() && path !in items && IndexOf(order, path) == |order|
      modifies this, files
      ensures Valid()
      ensures !opens ==> file == None && View() == old(View()) && files.disk == old(files.disk)
      ensures opens ==> View() == PoolMiss(old(View()), old(files.disk), path, now, syncs).pool
      ensures opens ==> files.disk == PoolMiss(old(View()), old(files.disk), path, now, syncs).disk
      ensures opens ==> file == PoolMiss(old(View()), old(files.disk), path, now, syncs).handle
    {
      ghost var p, created := View(), OpenFile(files.disk, path, now);
      file := files.OpenForAppend(path, now, opens);
      if file == None {
        return;
      }
      if |order| >= capacity {
        EvictLast(syncs);
      }
      MakeRoomKeeps(p, created, syncs);
      ghost var room := MakeRoom(p, created, syncs);
      assert room.pool.order == order && room.pool.closed == files.closed && room.disk == files.disk;
      PushFrontKeeps(room.pool, file.value);
      PushIndexes(items, order, file.value);
      order := [file.value] + order;
      items := items[path := file.value];
      assert View() == PushFront(room.pool, file.value);
    }

    lemma {:induction false} FoundAt(path: RelPath)
      requires Valid() && path in items
      ensures IndexOf(order, path) < |order| && order[IndexOf(order, path)] == items[path]
    {
      assert InPool(order, path);
      var k :| 0 <= k < |order| && order[k].path == path;
      assert items[order[k].path] == order[k];
    }

    /** Takes the last handle out of the list, syncs its file and closes it. */
    method EvictLast(syncs: bool)
      requires order != [] && Indexes(items, order) && DistinctPaths(order)
      modifies this, files
      ensures Indexes(items, order)
      ensures order == old(order)[..|old(order)| - 1]
      ensures items == old(items) - {old(order)[|old(order)| - 1].path}
      ensures files.closed == old(files.closed) + [old(order)[|old(order)| - 1].fd] && files.nextFd == old(files.nextFd)
      ensures files.disk == SyncIf(old(files.disk), old(order)[|old(order)| - 1].ino, syncs)
    {
      var n := |order| - 1;
      var evicted := order[n];
      EvictIndexes(items, order, n);
      order := order[..n];
      files.SyncFile(evicted, syncs);
      files.CloseFile(evicted);
      items := items - {evicted.path};
    }

    /** Syncs every file of the pool; `failing` are the descriptors for which that fails. */
    method SyncAll(failing: set<nat>)
      requires Valid()
      modifies files`disk
      ensures Valid() && View() == old(View())
      ensures files.disk == SyncHandles(old(files.disk), order, failing)
    {
      for i := 0 to |order|
        invariant View() == old(View())
        invariant files.disk == SyncHandles(old(files.disk), order[..i], failing)
      {
        assert order[..i + 1] == order[..i] + [order[i]];
        SyncHandlesAppend(old(files.disk), order[..i], order[i], failing);
        files.SyncFile(order[i], order[i].fd !in failing);
      }
      assert order[..|order|] == order;
    }

    method CloseAll(failing: set<nat>)
      requires Valid()
      modifies this, files
      ensures Valid() && View() == PoolCloseAll(old(View()))
      ensures files.disk == SyncHandles(old(files.disk), old(order), failing)
    {
      ghost var p := View();
      CloseAllClosesOnce(p);
      CloseEach(failing);
      items, order := map[], [];
      assert View() == PoolCloseAll(p);
    }

    method CloseEach(failing: set<nat>)
      modifies files
      ensures files.nextFd == old(files.nextFd) && files.closed == old(files.closed) + Fds(order)
      ensures files.disk == SyncHandles(old(files.disk), order, failing)
    {
      ghost var fds := Fds(order);
      for i := 0 to |order|
        invariant files.nextFd == old(files.nextFd) && files.closed == old(files.closed) + fds[..i]
        invariant files.disk == SyncHandles(old(files.disk), order[..i], failing)
      {
        assert order[..i + 1] == order[..i] + [order[i]];
        SyncHandlesAppend(old(files.disk), order[..i], order[i], failing);
        files.SyncFile(order[i], order[i].fd !in failing);
        files.CloseFile(order[i]);
        assert fds[..i + 1] == fds[..i] + [order[i].fd];
      }
      assert order[..|order|] == order && fds[..|fds|] == fds;
    }
  }

  class FileWriter {
    const pool: LruFilePool
    const codec: Codec
    const stamp: nat -> string
    const offset: nat

    constructor (codec: Codec, stamp: nat -> string, offset: nat, pool: LruFilePool)
      ensures this.codec == codec && this.stamp == stamp && this.offset == offset && this.pool == pool
    {
      this.codec, this.stamp, this.offset, this.pool := codec, stamp, offset, pool;
    }

    /**
     Appends the entry's line to the file of its project and hour; `fault` says what fails on the way, if
     anything.
     */
    method WriteEntry(e: Entry, now: nat, fault: Fault, syncs: bool) returns (place: Option<Place>)
      requires pool.Valid()
      modifies pool, pool.files
      ensures pool.Valid()
      ensures var path, line := BuildRelPath(e.projectId, now, offset), MarshalJsonl(codec, e, stamp(now));
              var w := CaptureWriter.Write(old(pool.View()), old(pool.files.disk), path, line, now, fault, syncs);
              pool.View() == w.pool && pool.files.disk == w.disk && place == w.place
    {
      var path := BuildRelPath(e.projectId, now, offset);
      if fault.MkdirFails? {
        return None;
      }
      ghost var r := PoolGet(pool.View(), pool.files.disk, path, now, !fault.OpenFails?, syncs);
      var file := pool.Get(path, now, !fault.OpenFails?, syncs);
      if file == None {
        return None;
      }
      place := AppendLine(file.value, path, MarshalJsonl(codec, e, stamp(now)), now, fault, r.lost);
    }

    /** Seeks to the end of an open file and writes a line there. */
    method AppendLine(file: Handle, path: RelPath, line: Bytes, now: nat, fault: Fault, ghost lost: bool)
      returns (place: Option<Place>)
      requires pool.Valid()
      modifies pool.files`disk
      ensures pool.Valid() && pool.View() == old(pool.View())
      ensures WriteResult(pool.View(), pool.files.disk, place, lost)
           == WriteTo(GetResult(old(pool.View()), old(pool.files.disk), Some(file), lost), path, line, now, fault)
    {
      var end := pool.files.SeekEnd(file, !fault.SeekFails?);
      if end == None {
        return None;
      }
      var ok := pool.files.WriteFile(file, line + [LF], now, fault);
      if !ok {
        return None;
      }
      return Some(Place(path, end.value));
    }
  }
}
