/** The capture files: names, inodes, what of them is synced, and how a stored line is read back. */
module CaptureDisk {
  import opened Lines
  import opened Json
  import opened Calendar
  import opened CaptureStore

  /** A file keeps the path it was created under; `synced` bytes of it are on disk. */
  datatype Inode = Inode(path: RelPath, content: Bytes, synced: nat, mtime: nat)

  /** Names come and go, the inodes behind open handles stay. */
  datatype Disk = Disk(names: map<RelPath, nat>, inodes: seq<Inode>)

  ghost predicate Sound(d: Disk) {
    && (forall p :: p in d.names ==> d.names[p] < |d.inodes| && d.inodes[d.names[p]].path == p)
    && (forall i :: 0 <= i < |d.inodes| ==> d.inodes[i].synced <= |d.inodes[i].content|)
  }

  /** `O_CREATE`: the inode a path names, a new and empty one when it names none. */
  function InodeOf(d: Disk, path: RelPath): nat {
    if path in d.names then d.names[path] else |d.inodes|
  }

  function OpenFile(d: Disk, path: RelPath, now: nat): Disk {
    if path in d.names then d
    else Disk(d.names[path := |d.inodes|], d.inodes + [Inode(path, [], 0, now)])
  }

  /** `O_APPEND`: bytes go to the end of the file. */
  function Append(d: Disk, ino: nat, bytes: Bytes, now: nat): Disk
    requires ino < |d.inodes|
  {
    var file := d.inodes[ino];
    var mtime := if bytes == [] then file.mtime else now;
    d.(inodes := d.inodes[ino := file.(content := file.content + bytes, mtime := mtime)])
  }

  function Sync(d: Disk, ino: nat): Disk
    requires ino < |d.inodes|
  {
    d.(inodes := d.inodes[ino := d.inodes[ino].(synced := |d.inodes[ino].content|)])
  }

  function Remove(d: Disk, path: RelPath): Disk {
    d.(names := d.names - {path})
  }

  /** The file is there and has not been written to for an hour. */
  predicate FileAged(d: Disk, path: RelPath, now: nat) {
    path in d.names && d.names[path] < |d.inodes| && d.inodes[d.names[path]].mtime + HOUR <= now
  }

  // What all operations but Remove have in common

  predicate FileGrows(a: Inode, b: Inode) {
    a.path == b.path && a.content <= b.content && a.synced <= b.synced && a.mtime <= b.mtime
  }

  ghost predicate Grows(d: Disk, e: Disk) {
    && |d.inodes| <= |e.inodes|
    && (forall i :: 0 <= i < |d.inodes| ==> FileGrows(d.inodes[i], e.inodes[i]))
    && (forall p :: p in d.names ==> p in e.names && e.names[p] == d.names[p])
  }

  lemma {:induction false} GrowsTransitive(d: Disk, e: Disk, f: Disk)
    requires Grows(d, e) && Grows(e, f)
    ensures Grows(d, f)
  {
    forall i | 0 <= i < |d.inodes|
      ensures FileGrows(d.inodes[i], f.inodes[i])
    {
      assert FileGrows(d.inodes[i], e.inodes[i]) && FileGrows(e.inodes[i], f.inodes[i]);
    }
  }

  lemma {:induction false} OpenFileGrows(d: Disk, path: RelPath, now: nat)
    requires Sound(d)
    ensures Sound(OpenFile(d, path, now)) && Grows(d, OpenFile(d, path, now))
    ensures InodeOf(d, path) < |OpenFile(d, path, now).inodes|
  {
  }

  lemma {:induction false} AppendGrows(d: Disk, ino: nat, bytes: Bytes, now: nat)
    requires Sound(d) && ino < |d.inodes| && d.inodes[ino].mtime <= now
    ensures Sound(Append(d, ino, bytes, now)) && Grows(d, Append(d, ino, bytes, now))
  {
  }

  lemma {:induction false} SyncGrows(d: Disk, ino: nat)
    requires Sound(d) && ino < |d.inodes|
    ensures Sound(Sync(d, ino)) && Grows(d, Sync(d, ino))
  {
  }

  // Reading a line back

  /** The scanner's buffer: a line and its line feed must fit into it. */
  const MAX_LINE: nat := 2 * 1024 * 1024

  function LineEnd(s: Bytes): (n: nat)
    ensures n <= |s| && LfFree(s[..n])
    ensures n < |s| ==> s[n] == LF
  {
    if s == [] || s[0] == LF then 0 else 1 + LineEnd(s[1..])
  }

  function DropCr(s: Bytes): Bytes {
    if |s| > 0 && s[|s| - 1] == CR then s[..|s| - 1] else s
  }

  /** `bufio.Scanner` from an offset of a file: the rest of that line, unless it is too long or there is none. */
  function ReadLine(content: Bytes, offset: nat): Option<Bytes> {
    if offset >= |content| then None
    else
      var rest := content[offset..];
      var n := LineEnd(rest);
      if n >= MAX_LINE then None else Some(DropCr(rest[..n]))
  }

  function ReadAt(d: Disk, path: RelPath, offset: nat): Option<Bytes> {
    if path in d.names && d.names[path] < |d.inodes| then ReadLine(d.inodes[d.names[path]].content, offset) else None
  }

  /** The bytes of `line` and its line feed stand at `offset`. */
  predicate LineAt(content: Bytes, offset: nat, line: Bytes) {
    offset + |line| < |content| && content[offset..offset + |line|] == line && content[offset + |line|] == LF
  }

  lemma {:induction false} LineEndOf(line: Bytes, rest: Bytes)
    requires LfFree(line)
    ensures LineEnd(line + ([LF] + rest)) == |line|
  {
    var s := line + ([LF] + rest);
    if line != [] {
      LineEndOf(line[1..], rest);
      assert s[1..] == line[1..] + ([LF] + rest);
      assert s[0] == line[0] && line[0] in line;
    }
  }

  /**
   A line without line feeds is read back from where it stands exactly when it and its line feed fit the scanner's
   buffer of 2 MiB; a carriage return at its end is lost.
   */
  lemma {:induction false} ReadBack(content: Bytes, offset: nat, line: Bytes)
    requires LineAt(content, offset, line) && LfFree(line)
    ensures ReadLine(content, offset)
         == if |line| + 1 > 2_097_152 then None
            else if line != [] && line[|line| - 1] == '\r' then Some(line[..|line| - 1])
            else Some(line)
  {
    var n := |line|;
    var rest, tail := content[offset..], content[offset + n + 1..];
    assert rest[..n] == line;
    assert rest == line + ([LF] + tail);
    LineEndOf(line, tail);
  }

  /** Nothing is read exactly at the end of the file, and where 2 MiB without a line feed fill the scanner's buffer. */
  lemma {:induction false} NothingReadIff(content: Bytes, offset: nat)
    ensures ReadLine(content, offset) == None <==>
      offset >= |content| || (offset + 2_097_152 <= |content| && '\n' !in content[offset..offset + 2_097_152])
  {
    if offset < |content| {
      var rest := content[offset..];
      var n := LineEnd(rest);
      if n >= MAX_LINE {
        assert content[offset..offset + MAX_LINE] == rest[..n][..MAX_LINE];
      } else if n < |rest| && offset + MAX_LINE <= |content| {
        assert content[offset..offset + MAX_LINE][n] == LF;
      }
    }
  }

  /** Writing nothing leaves the file as it was, also its time of modification. */
  lemma {:induction false} AppendNothing(d: Disk, ino: nat, now: nat)
    requires ino < |d.inodes|
    ensures Append(d, ino, [], now) == d
  {
    assert d.inodes[ino].content + [] == d.inodes[ino].content;
    assert d.inodes[ino := d.inodes[ino]] == d.inodes;
  }

  lemma {:induction false} LineAtGrows(a: Bytes, b: Bytes, offset: nat, line: Bytes)
    requires a <= b && LineAt(a, offset, line)
    ensures LineAt(b, offset, line)
  {
    assert b[offset..offset + |line|] == a[offset..offset + |line|];
  }

  lemma {:induction false} LineAtAppended(content: Bytes, line: Bytes)
    ensures LineAt(content + (line + [LF]), |content|, line)
  {
    var c := content + (line + [LF]);
    assert c[|content|..|content| + |line|] == line;
  }
}
