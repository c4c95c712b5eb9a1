/** The pool of open file handles, as a function of its state: lookup, eviction, sync and close. */
module FilePool {
  import opened Sequences
  import opened Json
  import opened CaptureStore
  import opened CaptureDisk

  /** An open file: the path it was opened under, its descriptor and the inode behind it. */
  datatype Handle = Handle(path: RelPath, fd: nat, ino: nat)

  /** `order` is the list from the most to the least recently used; `closed` are the descriptors closed so far. */
  datatype Pool = Pool(capacity: nat, order: seq<Handle>, nextFd: nat, closed: seq<nat>)

  function EmptyPool(capacity: nat): Pool {
    Pool(capacity, [], 0, [])
  }

  predicate Owns(order: seq<Handle>, fd: nat) {
    exists k :: 0 <= k < |order| && order[k].fd == fd
  }

  predicate DistinctPaths(order: seq<Handle>) {
    forall i, j :: 0 <= i < j < |order| ==> order[i].path != order[j].path
  }

  predicate DistinctFds(order: seq<Handle>) {
    forall i, j :: 0 <= i < j < |order| ==> order[i].fd != order[j].fd
  }

  /** Every descriptor handed out is either open in the pool or closed, and closed once. */
  ghost predicate PoolOk(p: Pool) {
    && p.capacity > 0 && |p.order| <= p.capacity
    && DistinctPaths(p.order) && DistinctFds(p.order) && Distinct(p.closed)
    && (forall k :: 0 <= k < |p.order| ==> p.order[k].fd < p.nextFd && p.order[k].fd !in p.closed)
    && (forall k :: 0 <= k < |p.closed| ==> p.closed[k] < p.nextFd)
    && (forall fd: nat {:trigger Owns(p.order, fd)} :: fd < p.nextFd && fd !in p.closed ==> Owns(p.order, fd))
  }

  function IndexOf(order: seq<Handle>, path: RelPath): (i: nat)
    ensures i <= |order|
    ensures i < |order| ==> order[i].path == path
    ensures forall k :: 0 <= k < i ==> order[k].path != path
  {
    if order == [] || order[0].path == path then 0 else 1 + IndexOf(order[1..], path)
  }

  /** What a lookup leaves behind; `lost` says that an evicted file could not be synced. */
  datatype GetResult = GetResult(pool: Pool, disk: Disk, handle: Option<Handle>, lost: bool)

  function MoveToFront(order: seq<Handle>, i: nat): seq<Handle>
    requires i < |order|
  {
    [order[i]] + (order[..i] + order[i + 1..])
  }

  function SyncIf(d: Disk, ino: nat, syncs: bool): Disk {
    if syncs && ino < |d.inodes| then Sync(d, ino) else d
  }

  datatype PoolDisk = PoolDisk(pool: Pool, disk: Disk)

  predicate Full(p: Pool) {
    |p.order| >= p.capacity && |p.order| > 0
  }

  /** A full pool syncs and closes the file at the back of its list. */
  function MakeRoom(p: Pool, d: Disk, syncs: bool): PoolDisk {
    if Full(p) then
      var n := |p.order| - 1;
      PoolDisk(Pool(p.capacity, p.order[..n], p.nextFd, p.closed + [p.order[n].fd]), SyncIf(d, p.order[n].ino, syncs))
    else PoolDisk(p, d)
  }

  function PushFront(p: Pool, handle: Handle): Pool {
    Pool(p.capacity, [handle] + p.order, p.nextFd + 1, p.closed)
  }

  function PoolMiss(p: Pool, d: Disk, path: RelPath, now: nat, syncs: bool): GetResult {
    var handle := Handle(path, p.nextFd, InodeOf(d, path));
    var room := MakeRoom(p, OpenFile(d, path, now), syncs);
    GetResult(PushFront(room.pool, handle), room.disk, Some(handle), Full(p) && !syncs)
  }

  function PoolGet(p: Pool, d: Disk, path: RelPath, now: nat, opens: bool, syncs: bool): GetResult {
    var i := IndexOf(p.order, path);
    if i < |p.order| then GetResult(p.(order := MoveToFront(p.order, i)), d, Some(p.order[i]), false)
    else if !opens then GetResult(p, d, None, false)
    else PoolMiss(p, d, path, now, syncs)
  }

  /** Syncs the files of all handles but those whose descriptor is in `failing`. */
  function SyncHandles(d: Disk, order: seq<Handle>, failing: set<nat>): (e: Disk)
    ensures |e.inodes| == |d.inodes|
    decreases |order|
  {
    if order == [] then d
    else SyncHandles(SyncIf(d, order[0].ino, order[0].fd !in failing), order[1..], failing)
  }

  function Fds(order: seq<Handle>): (fds: seq<nat>)
    ensures |fds| == |order|
    ensures forall k :: 0 <= k < |fds| ==> fds[k] == order[k].fd
  {
    if order == [] then [] else [order[0].fd] + Fds(order[1..])
  }

  function PoolCloseAll(p: Pool): Pool {
    Pool(p.capacity, [], p.nextFd, p.closed + Fds(p.order))
  }

  /** Where the element at `k` came from when the one at `i` was moved to the front. */
  function Source(i: nat, k: nat): nat {
    if k == 0 then i else if k <= i then k - 1 else k
  }

  function Target(i: nat, k: nat): nat {
    if k == i then 0 else if k < i then k + 1 else k
  }

  lemma {:induction false} MovedFrom(order: seq<Handle>, i: nat, o: seq<Handle>)
    requires i < |order| && o == MoveToFront(order, i)
    ensures |o| == |order|
    ensures forall k :: 0 <= k < |o| ==> o[k] == order[Source(i, k)]
    ensures forall k :: 0 <= k < |o| ==> order[k] == o[Target(i, k)]
  {
    var rest := order[..i] + order[i + 1..];
    forall k | 0 <= k < |o|
      ensures o[k] == order[Source(i, k)]
    {
      if k > 0 {
        assert o[k] == rest[k - 1];
      }
    }
    forall k | 0 <= k < |o|
      ensures order[k] == o[Target(i, k)]
    {
      assert Source(i, Target(i, k)) == k;
    }
  }

  lemma {:induction false} MoveToFrontKeeps(p: Pool, i: nat, o: seq<Handle>)
    requires PoolOk(p) && i < |p.order| && o == MoveToFront(p.order, i)
    ensures PoolOk(p.(order := o))
  {
    MovedFrom(p.order, i, o);
    forall fd: nat | fd < p.nextFd
      ensures fd in p.closed || Owns(o, fd)
    {
      if fd !in p.closed {
        assert Owns(p.order, fd);
        MovedOwns(p.order, i, o, fd);
      }
    }
  }

  lemma {:induction false} MovedOwns(order: seq<Handle>, i: nat, o: seq<Handle>, fd: nat)
    requires Owns(order, fd) && i < |order| && o == MoveToFront(order, i)
    ensures Owns(o, fd)
  {
    MovedFrom(order, i, o);
    var k :| 0 <= k < |order| && order[k].fd == fd;
    assert o[Target(i, k)].fd == fd;
  }

  lemma {:induction false} PushFrontKeeps(p: Pool, handle: Handle)
    requires PoolOk(p) && |p.order| < p.capacity && handle.fd == p.nextFd
    requires forall k :: 0 <= k < |p.order| ==> p.order[k].path != handle.path
    ensures PoolOk(PushFront(p, handle))
  {
    var o := [handle] + p.order;
    assert forall k :: 0 < k < |o| ==> o[k] == p.order[k - 1];
    forall fd: nat | fd < p.nextFd + 1
      ensures fd in p.closed || Owns(o, fd)
    {
      if fd == p.nextFd {
        assert o[0].fd == fd;
      } else if fd !in p.closed {
        assert Owns(p.order, fd);
        var k :| 0 <= k < |p.order| && p.order[k].fd == fd;
        assert o[k + 1].fd == fd;
      }
    }
  }

  lemma {:induction false} EvictKeeps(p: Pool, n: nat)
    requires PoolOk(p) && |p.order| == n + 1
    ensures PoolOk(Pool(p.capacity, p.order[..n], p.nextFd, p.closed + [p.order[n].fd]))
  {
    var o, c := p.order[..n], p.closed + [p.order[n].fd];
    assert p.order[n].fd !in p.closed;
    forall fd: nat | fd < p.nextFd
      ensures fd in c || Owns(o, fd)
    {
      if fd !in p.closed {
        assert Owns(p.order, fd);
        var k :| 0 <= k < |p.order| && p.order[k].fd == fd;
        if k == n {
          assert c[|p.closed|] == fd;
        } else {
          assert o[k].fd == fd;
        }
      } else {
        var k :| 0 <= k < |p.closed| && p.closed[k] == fd;
        assert c[k] == fd;
      }
    }
  }

  lemma {:induction false} MakeRoomKeeps(p: Pool, d: Disk, syncs: bool)
    requires PoolOk(p)
    ensures PoolOk(MakeRoom(p, d, syncs).pool) && |MakeRoom(p, d, syncs).pool.order| < p.capacity
    ensures MakeRoom(p, d, syncs).pool.nextFd == p.nextFd && MakeRoom(p, d, syncs).pool.capacity == p.capacity
    ensures MakeRoom(p, d, syncs).pool.order <= p.order
  {
    if Full(p) {
      EvictKeeps(p, |p.order| - 1);
    }
  }

  /** A lookup keeps the pool sound, and the handle it returns is open. A failed open changes nothing. */
  lemma {:induction false} PoolGetOk(p: Pool, d: Disk, path: RelPath, now: nat, opens: bool, syncs: bool, r: GetResult)
    requires PoolOk(p) && r == PoolGet(p, d, path, now, opens, syncs)
    ensures PoolOk(r.pool) && r.pool.capacity == p.capacity
    ensures r.handle == None ==> r.pool == p && r.disk == d
    ensures r.handle != None ==> r.handle.value.path == path && r.handle.value.fd !in r.pool.closed
    ensures r.handle != None ==> r.pool.order != [] && r.pool.order[0] == r.handle.value
  {
    var i := IndexOf(p.order, path);
    if i < |p.order| {
      MoveToFrontKeeps(p, i, MoveToFront(p.order, i));
    } else if opens {
      var handle := Handle(path, p.nextFd, InodeOf(d, path));
      MakeRoomKeeps(p, OpenFile(d, path, now), syncs);
      PushFrontKeeps(MakeRoom(p, OpenFile(d, path, now), syncs).pool, handle);
    }
  }

  /** After closing the pool every descriptor ever handed out is closed, each of them once. */
  lemma {:induction false} CloseAllClosesOnce(p: Pool)
    requires PoolOk(p)
    ensures PoolOk(PoolCloseAll(p))
    ensures Distinct(PoolCloseAll(p).closed)
    ensures forall fd: nat :: fd in PoolCloseAll(p).closed <==> fd < p.nextFd
  {
    var c, fds := PoolCloseAll(p).closed, Fds(p.order);
    assert c == p.closed + fds;
    assert Distinct(fds);
    forall i, j | 0 <= i < j < |c|
      ensures c[i] != c[j]
    {
      if i < |p.closed| <= j {
        assert p.order[j - |p.closed|].fd !in p.closed;
      }
    }
    forall fd: nat | fd < p.nextFd
      ensures fd in c
    {
      if fd !in p.closed {
        assert Owns(p.order, fd);
        var k :| 0 <= k < |p.order| && p.order[k].fd == fd;
        assert c[|p.closed| + k] == fd;
      }
    }
  }

  // The pool is the most recently used paths

  function Paths(order: seq<Handle>): (paths: seq<RelPath>)
    ensures |paths| == |order|
    ensures forall k :: 0 <= k < |paths| ==> paths[k] == order[k].path
  {
    if order == [] then [] else [order[0].path] + Paths(order[1..])
  }

  function Without(paths: seq<RelPath>, path: RelPath): seq<RelPath> {
    if paths == [] then []
    else (if paths[0] == path then [] else [paths[0]]) + Without(paths[1..], path)
  }

  /** The distinct paths of a trace of lookups, the latest first. */
  function Recent(trace: seq<RelPath>): seq<RelPath> {
    if trace == [] then []
    else
      var n := |trace| - 1;
      [trace[n]] + Without(Recent(trace[..n]), trace[n])
  }

  function First(n: nat, paths: seq<RelPath>): seq<RelPath> {
    if |paths| <= n then paths else paths[..n]
  }

  lemma {:induction false} WithoutAbsent(paths: seq<RelPath>, path: RelPath)
    requires path !in paths
    ensures Without(paths, path) == paths
  {
    if paths != [] {
      WithoutAbsent(paths[1..], path);
    }
  }

  lemma {:induction false} WithoutDistinct(paths: seq<RelPath>, path: RelPath)
    requires Distinct(paths)
    ensures Distinct(Without(paths, path))
    ensures forall p :: p in Without(paths, path) <==> p in paths && p != path
  {
    if paths != [] {
      assert Distinct(paths[1..]);
      WithoutDistinct(paths[1..], path);
      assert paths[0] !in paths[1..];
      assert forall p :: p in paths <==> p == paths[0] || p in paths[1..];
    }
  }

  /** Each path of the trace stands in `Recent` once, and nothing else does. */
  lemma {:induction false} RecentDistinct(trace: seq<RelPath>)
    ensures Distinct(Recent(trace))
    ensures forall p :: p in Recent(trace) <==> p in trace
  {
    if trace != [] {
      var n := |trace| - 1;
      var front := trace[..n];
      RecentDistinct(front);
      WithoutDistinct(Recent(front), trace[n]);
      var later := Without(Recent(front), trace[n]);
      assert Recent(trace) == [trace[n]] + later && trace[n] !in later;
      assert forall p :: p in trace <==> p in front || p == trace[n];
    }
  }

  /** The position of the last lookup of a path. */
  function LastIndex(trace: seq<RelPath>, path: RelPath): (i: nat)
    requires path in trace
    ensures i < |trace| && trace[i] == path
    ensures forall k :: i < k < |trace| ==> trace[k] != path
  {
    var n := |trace| - 1;
    if trace[n] == path then n else LastIndex(trace[..n], path)
  }

  predicate LatestFirst(trace: seq<RelPath>, paths: seq<RelPath>)
    requires forall p :: p in paths ==> p in trace
  {
    forall i, j :: 0 <= i < j < |paths| ==> LastIndex(trace, paths[i]) > LastIndex(trace, paths[j])
  }

  lemma {:induction false} WithoutLatestFirst(trace: seq<RelPath>, paths: seq<RelPath>, path: RelPath)
    requires (forall p :: p in paths ==> p in trace) && LatestFirst(trace, paths) && Distinct(paths)
    ensures (forall p :: p in Without(paths, path) ==> p in trace) && LatestFirst(trace, Without(paths, path))
  {
    if paths != [] {
      var head, rest := paths[0], paths[1..];
      assert Distinct(rest) && forall p :: p in rest ==> p in paths;
      forall k | 0 <= k < |rest|
        ensures LastIndex(trace, head) > LastIndex(trace, rest[k])
      {
        assert paths[k + 1] == rest[k];
      }
      WithoutLatestFirst(trace, rest, path);
      WithoutDistinct(rest, path);
      HeadLatest(trace, head, rest, Without(rest, path));
    }
  }

  lemma {:induction false} HeadLatest(trace: seq<RelPath>, head: RelPath, rest: seq<RelPath>, later: seq<RelPath>)
    requires head in trace && (forall p :: p in rest ==> p in trace) && forall p :: p in later ==> p in rest
    requires forall k :: 0 <= k < |rest| ==> LastIndex(trace, head) > LastIndex(trace, rest[k])
    requires LatestFirst(trace, later)
    ensures LatestFirst(trace, [head] + later)
  {
    var all := [head] + later;
    forall i, j | 0 <= i < j < |all|
      ensures LastIndex(trace, all[i]) > LastIndex(trace, all[j])
    {
      assert all[j] == later[j - 1] && later[j - 1] in later;
      if i == 0 {
        var k :| 0 <= k < |rest| && rest[k] == later[j - 1];
      } else {
        assert all[i] == later[i - 1];
      }
    }
  }

  /** The latest lookup stands first: the paths are ordered by when they were looked up last. */
  lemma {:induction false} RecentLatestFirst(trace: seq<RelPath>)
    ensures (forall p :: p in Recent(trace) ==> p in trace) && LatestFirst(trace, Recent(trace))
  {
    RecentDistinct(trace);
    if trace != [] {
      var n := |trace| - 1;
      var front := trace[..n];
      RecentLatestFirst(front);
      RecentDistinct(front);
      WithoutDistinct(Recent(front), trace[n]);
      WithoutLatestFirst(front, Recent(front), trace[n]);
      var later := Without(Recent(front), trace[n]);
      assert Recent(trace) == [trace[n]] + later;
      forall j | 0 <= j < |later|
        ensures later[j] in front && LastIndex(trace, later[j]) == LastIndex(front, later[j])
      {
        assert later[j] in later;
      }
    }
  }

  lemma {:induction false} FirstOfCons(n: nat, head: RelPath, rest: seq<RelPath>)
    ensures First(n + 1, [head] + rest) == [head] + First(n, rest)
  {
  }

  lemma {:induction false} WithoutOfCons(head: RelPath, rest: seq<RelPath>, path: RelPath)
    ensures Without([head] + rest, path) == (if head == path then [] else [head]) + Without(rest, path)
  {
    assert ([head] + rest)[1..] == rest;
  }

  /** Cutting a list of distinct paths to a length before or after moving one to the front is the same. */
  lemma {:induction false} WithoutOfFirst(n: nat, paths: seq<RelPath>, path: RelPath)
    requires Distinct(paths)
    ensures First(n, Without(First(n + 1, paths), path)) == First(n, Without(paths, path))
  {
    if paths != [] {
      var head, rest := paths[0], paths[1..];
      assert Distinct(rest) && head !in rest;
      FirstOfCons(n, head, rest);
      assert paths == [head] + rest;
      WithoutOfCons(head, First(n, rest), path);
      WithoutOfCons(head, rest, path);
      if head == path {
        WithoutAbsent(rest, path);
        WithoutAbsent(First(n, rest), path);
      } else if n > 0 {
        WithoutOfFirst(n - 1, rest, path);
        FirstOfCons(n - 1, head, Without(First(n, rest), path));
        FirstOfCons(n - 1, head, Without(rest, path));
      }
    }
  }

  lemma {:induction false} PathsAppend(a: seq<Handle>, b: seq<Handle>)
    ensures Paths(a + b) == Paths(a) + Paths(b)
  {
  }

  lemma {:induction false} WithoutAppend(a: seq<RelPath>, b: seq<RelPath>, path: RelPath)
    ensures Without(a + b, path) == Without(a, path) + Without(b, path)
  {
    if a == [] {
      assert a + b == b;
    } else {
      WithoutAppend(a[1..], b, path);
      HeadOfAppend(a, b);
      Associate(if a[0] == path then [] else [a[0]], Without(a[1..], path), Without(b, path));
    }
  }

  lemma {:induction false} WithoutMiddle(a: seq<RelPath>, path: RelPath, b: seq<RelPath>)
    requires path !in a && path !in b
    ensures Without(a + ([path] + b), path) == a + b
  {
    WithoutAppend(a, [path] + b, path);
    WithoutOfCons(path, b, path);
    WithoutAbsent(a, path);
    WithoutAbsent(b, path);
    assert [] + b == b;
  }

  lemma {:induction false} PathsWithout(order: seq<Handle>, i: nat)
    requires DistinctPaths(order) && i < |order|
    ensures Paths(order[..i] + order[i + 1..]) == Without(Paths(order), order[i].path)
  {
    var a, h, b := order[..i], order[i], order[i + 1..];
    assert order == a + ([h] + b);
    PathsAppend(a, [h] + b);
    PathsAppend([h], b);
    PathsAppend(a, b);
    assert Paths([h]) == [h.path];
    assert h.path !in Paths(a) && h.path !in Paths(b);
    WithoutMiddle(Paths(a), h.path, Paths(b));
  }

  /** A successful lookup puts its path in front of the others and keeps as many as fit. */
  /** Synced bytes may be lost exactly if a file is opened in a full pool and the sync of the evicted one fails. */
  lemma {:induction false} LostIff(p: Pool, d: Disk, path: RelPath, now: nat, opens: bool, syncs: bool)
    requires PoolOk(p)
    ensures PoolGet(p, d, path, now, opens, syncs).lost <==>
      opens && !syncs && |p.order| == p.capacity && forall k :: 0 <= k < |p.order| ==> p.order[k].path != path
  {
    var i := IndexOf(p.order, path);
    assert i < |p.order| ==> p.order[i].path == path;
  }

  lemma {:induction false} PathsAfterGet(p: Pool, d: Disk, path: RelPath, now: nat, opens: bool, syncs: bool)
    requires PoolOk(p)
    requires PoolGet(p, d, path, now, opens, syncs).handle != None
    ensures Paths(PoolGet(p, d, path, now, opens, syncs).pool.order)
         == First(p.capacity, [path] + Without(Paths(p.order), path))
  {
    var i := IndexOf(p.order, path);
    if i < |p.order| {
      PathsAfterHit(p, path, i, MoveToFront(p.order, i));
    } else {
      PathsAfterMiss(p, PoolMiss(p, d, path, now, syncs).pool.order, PoolMiss(p, d, path, now, syncs).handle.value);
    }
  }

  lemma {:induction false} PathsAfterHit(p: Pool, path: RelPath, i: nat, o: seq<Handle>)
    requires PoolOk(p) && i < |p.order| && p.order[i].path == path && o == MoveToFront(p.order, i)
    ensures Paths(o) == First(p.capacity, [path] + Without(Paths(p.order), path))
  {
    MovedFrom(p.order, i, o);
    PathsWithout(p.order, i);
    PathsAppend([p.order[i]], p.order[..i] + p.order[i + 1..]);
    assert Paths([p.order[i]]) == [path];
  }

  lemma {:induction false} PathsAfterMiss(p: Pool, o: seq<Handle>, handle: Handle)
    requires PoolOk(p) && IndexOf(p.order, handle.path) == |p.order|
    requires o == [handle] + if Full(p) then p.order[..|p.order| - 1] else p.order
    ensures Paths(o) == First(p.capacity, [handle.path] + Without(Paths(p.order), handle.path))
  {
    assert handle.path !in Paths(p.order);
    WithoutAbsent(Paths(p.order), handle.path);
  }

  /** The pool's list is the first `capacity` paths of `Recent`, after one more lookup as before. */
  lemma {:induction false} LruStep(p: Pool, d: Disk, trace: seq<RelPath>, path: RelPath, now: nat, opens: bool,
                                   syncs: bool)
    requires PoolOk(p) && Paths(p.order) == First(p.capacity, Recent(trace))
    requires PoolGet(p, d, path, now, opens, syncs).handle != None
    ensures Paths(PoolGet(p, d, path, now, opens, syncs).pool.order) == First(p.capacity, Recent(trace + [path]))
  {
    var recent, c := Recent(trace), p.capacity;
    PathsAfterGet(p, d, path, now, opens, syncs);
    RecentDistinct(trace);
    assert (trace + [path])[..|trace|] == trace;
    assert Recent(trace + [path]) == [path] + Without(recent, path);
    FrontOfFirst(c, recent, path);
  }

  lemma {:induction false} FrontOfFirst(c: nat, recent: seq<RelPath>, path: RelPath)
    requires c > 0 && Distinct(recent)
    ensures First(c, [path] + Without(First(c, recent), path)) == First(c, [path] + Without(recent, path))
  {
    var a, b := Without(First(c, recent), path), Without(recent, path);
    WithoutOfFirst(c - 1, recent, path);
    FirstOfCons(c - 1, path, a);
    FirstOfCons(c - 1, path, b);
  }

  /** One lookup of a trace, successful or not, with what the operating system answered. */
  datatype Lookup = Lookup(path: RelPath, now: nat, opens: bool, syncs: bool)

  function Run(p: Pool, d: Disk, trace: seq<Lookup>): PoolDisk {
    if trace == [] then PoolDisk(p, d)
    else
      var n := |trace| - 1;
      var before := Run(p, d, trace[..n]);
      var r := PoolGet(before.pool, before.disk, trace[n].path, trace[n].now, trace[n].opens, trace[n].syncs);
      PoolDisk(r.pool, r.disk)
  }

  /** The paths of the lookups that did not fail. */
  function Served(p: Pool, d: Disk, trace: seq<Lookup>): seq<RelPath> {
    if trace == [] then []
    else
      var n := |trace| - 1;
      var before := Run(p, d, trace[..n]);
      var r := PoolGet(before.pool, before.disk, trace[n].path, trace[n].now, trace[n].opens, trace[n].syncs);
      Served(p, d, trace[..n]) + if r.handle == None then [] else [trace[n].path]
  }

  /** After any trace of lookups, failed ones among them, an initially empty pool holds the latest paths served. */
  lemma {:induction false} PoolIsLru(capacity: nat, d: Disk, trace: seq<Lookup>)
    requires capacity > 0
    ensures var p := Run(EmptyPool(capacity), d, trace).pool;
            PoolOk(p) && p.capacity == capacity
            && Paths(p.order) == First(capacity, Recent(Served(EmptyPool(capacity), d, trace)))
  {
    if trace != [] {
      var n := |trace| - 1;
      var front, l := trace[..n], trace[n];
      PoolIsLru(capacity, d, front);
      var before := Run(EmptyPool(capacity), d, front);
      var r := PoolGet(before.pool, before.disk, l.path, l.now, l.opens, l.syncs);
      PoolGetOk(before.pool, before.disk, l.path, l.now, l.opens, l.syncs, r);
      var served := Served(EmptyPool(capacity), d, front);
      if r.handle != None {
        LruStep(before.pool, before.disk, served, l.path, l.now, l.opens, l.syncs);
      } else {
        assert served + [] == served;
      }
    }
  }
}
