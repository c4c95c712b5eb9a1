/** Byte strings, and the splitting of a byte string at line feeds. */
module Lines {
  import opened Sequences

  /** One `char` stands for one byte, so that the source's literals read as they do there. */
  type Bytes = string

  const LF := '\n'

  const CR := '\r'

  predicate LfFree(s: Bytes) {
    LF !in s
  }

  predicate EndsWithLf(s: Bytes) {
    |s| > 0 && s[|s| - 1] == LF
  }

  /** The pieces of `s` between line feeds, as `bytes.Split(s, "\n")` returns them. */
  function Split(s: Bytes): (pieces: seq<Bytes>)
    ensures |pieces| >= 1
  {
    if s == [] then [[]]
    else if s[0] == LF then [[]] + Split(s[1..])
    else Prepend(s[0], Split(s[1..]))
  }

  function Prepend(c: char, pieces: seq<Bytes>): (r: seq<Bytes>)
    requires |pieces| >= 1
    ensures |r| == |pieces|
  {
    [[c] + pieces[0]] + pieces[1..]
  }

  /** Every piece but the last: the lines that a line feed has ended. */
  function Complete(s: Bytes): (lines: seq<Bytes>) {
    Split(s)[..|Split(s)| - 1]
  }

  /** The last piece: the line still open at the end of `s`. */
  function Open(s: Bytes): (line: Bytes) {
    Split(s)[|Split(s)| - 1]
  }

  lemma {:induction false} CompleteThenOpen(s: Bytes)
    ensures Split(s) == Complete(s) + [Open(s)]
  {
  }

  predicate AllLfFree(pieces: seq<Bytes>) {
    forall k :: 0 <= k < |pieces| ==> LfFree(pieces[k])
  }

  function Concat(parts: seq<Bytes>): Bytes {
    if parts == [] then [] else parts[0] + Concat(parts[1..])
  }

  /** The pieces put together again, with a line feed between two of them. */
  function Join(pieces: seq<Bytes>): Bytes
    requires |pieces| >= 1
  {
    if |pieces| == 1 then pieces[0] else pieces[0] + ([LF] + Join(pieces[1..]))
  }

  lemma {:induction false} SplitPiecesLfFree(s: Bytes)
    ensures AllLfFree(Split(s))
  {
    if s != [] {
      SplitPiecesLfFree(s[1..]);
      var rest := Split(s[1..]);
      assert LfFree(rest[0]);
    }
  }

  lemma {:induction false} JoinSplit(s: Bytes)
    ensures Join(Split(s)) == s
  {
    if s != [] {
      var rest := Split(s[1..]);
      JoinSplit(s[1..]);
      assert s == [s[0]] + s[1..];
      if s[0] == LF {
        assert Split(s)[1..] == rest;
      }
    }
  }

  /** A line feed after a line without one ends that line and nothing else. */
  lemma {:induction false} SplitLine(line: Bytes, rest: Bytes)
    requires LfFree(line)
    ensures Split(line + ([LF] + rest)) == [line] + Split(rest)
  {
    var s := line + ([LF] + rest);
    if line == [] {
      assert s[1..] == rest;
    } else {
      SplitLine(line[1..], rest);
      assert s[1..] == line[1..] + ([LF] + rest);
      assert [line[0]] + line[1..] == line;
      assert Prepend(line[0], [line[1..]] + Split(rest)) == [line] + Split(rest);
    }
  }

  lemma {:induction false} SplitLfFree(s: Bytes)
    requires LfFree(s)
    ensures Split(s) == [s]
  {
    if s != [] {
      SplitLfFree(s[1..]);
      assert [s[0]] + s[1..] == s;
    }
  }

  /** Together with `JoinSplit` and `SplitPiecesLfFree` this makes `Split` the only splitting there is. */
  lemma {:induction false} SplitJoin(pieces: seq<Bytes>)
    requires |pieces| >= 1 && AllLfFree(pieces)
    ensures Split(Join(pieces)) == pieces
  {
    assert LfFree(pieces[0]);
    if |pieces| == 1 {
      SplitLfFree(pieces[0]);
    } else {
      SplitJoin(pieces[1..]);
      SplitLine(pieces[0], Join(pieces[1..]));
    }
  }

  /** `pieces` with `b` after the last of them, split further. */
  function Continue(pieces: seq<Bytes>, b: Bytes): (r: seq<Bytes>)
    requires |pieces| >= 1
    ensures |r| >= |pieces|
  {
    pieces[..|pieces| - 1] + Split(pieces[|pieces| - 1] + b)
  }

  /** Splitting may be done in two steps, carrying the open line of the first part over to the second. */
  lemma {:induction false} SplitConcat(a: Bytes, b: Bytes)
    ensures Split(a + b) == Complete(a) + Split(Open(a) + b)
  {
    SplitContinue(a, b);
  }

  lemma {:induction false} SplitContinue(a: Bytes, b: Bytes)
    ensures Split(a + b) == Continue(Split(a), b)
  {
    if a == [] {
      assert a + b == b;
      assert [] + b == b;
    } else {
      SplitContinue(a[1..], b);
      assert (a + b)[1..] == a[1..] + b;
      assert Split(a + b) == After(a[0], Split(a[1..] + b));
      assert Split(a) == After(a[0], Split(a[1..]));
      ContinueAfter(a[0], Split(a[1..]), b);
    }
  }

  /** The pieces when one more byte comes before them. */
  function After(c: char, pieces: seq<Bytes>): (r: seq<Bytes>)
    requires |pieces| >= 1
    ensures |r| >= 1
  {
    if c == LF then [[]] + pieces else Prepend(c, pieces)
  }

  lemma {:induction false} SplitCons(c: char, s: Bytes)
    ensures Split([c] + s) == After(c, Split(s))
  {
    assert ([c] + s)[1..] == s;
  }

  lemma {:induction false} ContinueAfter(c: char, pieces: seq<Bytes>, b: Bytes)
    requires |pieces| >= 1
    ensures Continue(After(c, pieces), b) == After(c, Continue(pieces, b))
  {
    if c == LF {
    } else {
      ContinuePrepend(c, pieces, b);
    }
  }

  lemma {:induction false} ContinuePrepend(c: char, pieces: seq<Bytes>, b: Bytes)
    requires |pieces| >= 1 && c != LF
    ensures Continue(Prepend(c, pieces), b) == Prepend(c, Continue(pieces, b))
  {
    var n := |pieces| - 1;
    if n == 0 {
      assert ([c] + pieces[0]) + b == [c] + (pieces[0] + b);
      assert pieces[..0] + Split(pieces[0] + b) == Split(pieces[0] + b);
    } else {
      assert Prepend(c, pieces)[n] == pieces[n];
    }
  }

  lemma {:induction false} OpenAtLineEnd(s: Bytes)
    ensures Open(s) == [] <==> s == [] || EndsWithLf(s)
  {
    if s != [] {
      OpenAtLineEnd(s[1..]);
    }
  }

  lemma {:induction false} ConcatAppend(a: seq<Bytes>, b: seq<Bytes>)
    ensures Concat(a + b) == Concat(a) + Concat(b)
  {
    if a == [] {
      assert a + b == b;
    } else {
      ConcatAppend(a[1..], b);
      HeadOfAppend(a, b);
      Associate(a[0], Concat(a[1..]), Concat(b));
    }
  }
}
