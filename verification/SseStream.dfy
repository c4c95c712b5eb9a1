/**
 The event lines a stream of bytes carries, and what an `io.Reader` makes of that stream.

 The format is the subset of server-sent events (sections 9.2.5 and 9.2.6 of the WHATWG HTML
 Standard) that the scanner reads: line feeds only, the field name exactly `data: `, one line per event.
 */
module SseStream {
  import opened Lines
  import opened Sequences

  const DATA_PREFIX: Bytes := "data: "

  const DONE_PAYLOAD: Bytes := "[DONE]"

  const DONE_LINE: Bytes := DATA_PREFIX + DONE_PAYLOAD

  predicate IsData(line: Bytes) {
    DATA_PREFIX <= line
  }

  function Payload(line: Bytes): (payload: Bytes)
    requires IsData(line)
    ensures line == DATA_PREFIX + payload
  {
    line[|DATA_PREFIX|..]
  }

  predicate IsDone(line: Bytes)
    ensures IsDone(line) <==> line == "data: [DONE]"
  {
    assert DONE_LINE == "data: [DONE]";
    IsData(line) && Payload(line) == DONE_PAYLOAD
  }

  /** The lines that count, by their bytes: `data: ` and a payload after it, and the one line that ends a stream. */
  lemma {:induction false} EventLine(line: Bytes)
    ensures IsData(line) <==> |line| >= 6 && line[..6] == "data: "
    ensures IsData(line) ==> Payload(line) == line[6..]
    ensures IsDone(line) <==> line == "data: [DONE]"
  {
  }

  /** The lines handed to the caller, and whether `[DONE]` was met after them. */
  datatype Outcome = Outcome(lines: seq<Bytes>, completed: bool)

  /** What walking through `lines` hands out. */
  function Deliver(lines: seq<Bytes>): Outcome {
    if lines == [] then Outcome([], false)
    else if IsDone(lines[0]) then Outcome([], true)
    else
      var rest := Deliver(lines[1..]);
      if IsData(lines[0]) then Outcome([lines[0]] + rest.lines, rest.completed) else rest
  }

  /** The outcome for a whole stream: split it at line feeds, then walk through the lines. */
  function StreamOutcome(stream: Bytes): Outcome {
    Deliver(Split(stream))
  }

  // A second description of Deliver, by position and filter.

  function DataLines(lines: seq<Bytes>): seq<Bytes> {
    if lines == [] then []
    else if IsData(lines[0]) then [lines[0]] + DataLines(lines[1..])
    else DataLines(lines[1..])
  }

  /** The position of the first `data: [DONE]`, or the number of lines when there is none. */
  function FirstDone(lines: seq<Bytes>): (n: nat)
    ensures n <= |lines|
    ensures n < |lines| ==> lines[n] == "data: [DONE]"
    ensures "data: [DONE]" !in lines[..n]
  {
    if lines == [] || lines[0] == DONE_LINE then 0 else 1 + FirstDone(lines[1..])
  }

  /** The delivered lines are the `data: ` lines before the first `data: [DONE]`. */
  lemma {:induction false} DeliverIsDataBeforeDone(lines: seq<Bytes>)
    ensures Deliver(lines).lines == DataLines(lines[..FirstDone(lines)])
    ensures Deliver(lines).completed <==> "data: [DONE]" in lines
  {
    if lines != [] && !IsDone(lines[0]) {
      DeliverIsDataBeforeDone(lines[1..]);
      assert lines[..FirstDone(lines)] == [lines[0]] + lines[1..][..FirstDone(lines[1..])];
    }
  }

  function Then(first: Outcome, second: Outcome): Outcome {
    if first.completed then first else Outcome(first.lines + second.lines, second.completed)
  }

  lemma {:induction false} DeliverAppend(a: seq<Bytes>, b: seq<Bytes>)
    ensures Deliver(a + b) == Then(Deliver(a), Deliver(b))
  {
    if a == [] {
      assert a + b == b;
    } else {
      DeliverAppend(a[1..], b);
      HeadOfAppend(a, b);
      Associate([a[0]], Deliver(a[1..]).lines, Deliver(b).lines);
    }
  }

  lemma {:induction false} DeliveredLines(lines: seq<Bytes>)
    ensures forall l :: l in Deliver(lines).lines ==> l in lines && IsData(l) && !IsDone(l)
  {
    if lines != [] {
      DeliveredLines(lines[1..]);
    }
  }

  // Readers

  /** One result of `io.Reader.Read`: the bytes it put into the buffer, and whether it returned an error. */
  datatype Read = Read(data: Bytes, err: bool)

  const ZERO_READ := Read([], false)

  function Data(script: seq<Read>): Bytes {
    if script == [] then [] else script[0].data + Data(script[1..])
  }

  lemma {:induction false} DataOfOne(read: Read)
    ensures Data([read]) == read.data
  {
    assert Data([]) == [] && [read][1..] == [];
  }

  /**
   The lines the scanner will queue, from an unfinished line `carry` and the reads to come.
   A read without bytes ends the line carried so far, and ends the scan when there is none.
   */
  function ReadLines(carry: Bytes, script: seq<Read>): seq<Bytes>
    decreases |script|
  {
    if script == [] then
      if carry == [] then [] else [carry]
    else if script[0].data == [] then
      if carry == [] then [] else [carry] + ReadLines([], script[1..])
    else
      var chunk := carry + script[0].data;
      if script[0].err || EndsWithLf(chunk) then Split(chunk) + ReadLines([], script[1..])
      else Complete(chunk) + ReadLines(Open(chunk), script[1..])
  }

  function ReadOutcome(script: seq<Read>): Outcome {
    Deliver(ReadLines([], script))
  }

  /**
   The byte stream the scanner acts on. Where a read without bytes, or one with an error, falls inside
   a line and more follows, a line feed appears that no read delivered; a read without bytes
   between two lines (`atStart`) cuts off everything after it.
   */
  function Effective(atStart: bool, script: seq<Read>): Bytes
    decreases |script|
  {
    if script == [] then []
    else if script[0].data == [] then
      if atStart then [] else BreakBefore(Effective(true, script[1..]))
    else if EndsWithLf(script[0].data) then script[0].data + Effective(true, script[1..])
    else if script[0].err then script[0].data + BreakBefore(Effective(true, script[1..]))
    else script[0].data + Effective(false, script[1..])
  }

  function BreakBefore(rest: Bytes): Bytes {
    if rest == [] then [] else [LF] + rest
  }

  lemma {:induction false} DeliverOpenLine(line: Bytes, rest: Bytes)
    requires LfFree(line)
    ensures StreamOutcome(line + BreakBefore(rest)) == Then(Deliver([line]), StreamOutcome(rest))
  {
    if rest == [] {
      assert line + BreakBefore(rest) == line;
      SplitLfFree(line);
      assert Split(rest) == [[]];
      assert Deliver([[]]) == Outcome([], false);
    } else {
      SplitLine(line, rest);
      DeliverAppend([line], Split(rest));
    }
  }

  /** For every sequence of reads whatever, the scanner's lines are those of the effective stream. */
  lemma {:induction false} ReadLinesOutcome(carry: Bytes, script: seq<Read>)
    requires LfFree(carry)
    ensures Deliver(ReadLines(carry, script)) == StreamOutcome(carry + Effective(carry == [], script))
    decreases |script|
  {
    if script == [] {
      DeliverOpenLine(carry, []);
      assert carry + Effective(carry == [], script) == carry + BreakBefore([]);
    } else if script[0].data == [] {
      if carry != [] {
        ReadLinesOutcome([], script[1..]);
        DeliverAppend([carry], ReadLines([], script[1..]));
        DeliverOpenLine(carry, Effective(true, script[1..]));
        assert [] + Effective(true, script[1..]) == Effective(true, script[1..]);
      }
    } else {
      ReadLinesOutcomeChunk(carry, script);
    }
  }

  lemma {:induction false} ReadLinesOutcomeChunk(carry: Bytes, script: seq<Read>)
    requires LfFree(carry)
    requires script != [] && script[0].data != []
    ensures Deliver(ReadLines(carry, script)) == StreamOutcome(carry + Effective(carry == [], script))
    decreases |script|, 0
  {
    var data, rest := script[0].data, script[1..];
    var chunk := carry + data;
    assert EndsWithLf(chunk) == EndsWithLf(data);
    if EndsWithLf(chunk) {
      ReadLinesOutcome([], rest);
      OutcomeAfterLineEnd(chunk, ReadLines([], rest), Effective(true, rest));
      Associate(carry, data, Effective(true, rest));
    } else if script[0].err {
      ReadLinesOutcome([], rest);
      OutcomeAfterBreak(chunk, ReadLines([], rest), Effective(true, rest));
      Associate(carry, data, BreakBefore(Effective(true, rest)));
    } else {
      OpenOfPartLine(chunk);
      ReadLinesOutcome(Open(chunk), rest);
      OutcomeAfterPart(chunk, ReadLines(Open(chunk), rest), Effective(false, rest));
      Associate(carry, data, Effective(false, rest));
    }
  }

  lemma {:induction false} OpenOfPartLine(s: Bytes)
    requires s != [] && !EndsWithLf(s)
    ensures Open(s) != [] && LfFree(Open(s))
  {
    OpenAtLineEnd(s);
    SplitPiecesLfFree(s);
  }

  lemma {:induction false} OutcomeAfterPart(s: Bytes, lines: seq<Bytes>, rest: Bytes)
    requires Deliver(lines) == StreamOutcome(Open(s) + rest)
    ensures Deliver(Complete(s) + lines) == StreamOutcome(s + rest)
  {
    DeliverAppend(Complete(s), lines);
    OutcomeInTwoParts(s, rest);
  }

  lemma {:induction false} OutcomeInTwoParts(s: Bytes, rest: Bytes)
    ensures StreamOutcome(s + rest) == Then(Deliver(Complete(s)), StreamOutcome(Open(s) + rest))
    ensures StreamOutcome(s) == Then(Deliver(Complete(s)), Deliver([Open(s)]))
  {
    SplitConcat(s, rest);
    DeliverAppend(Complete(s), Split(Open(s) + rest));
    CompleteThenOpen(s);
    DeliverAppend(Complete(s), [Open(s)]);
  }

  lemma {:induction false} DeliverOne(line: Bytes)
    ensures Deliver([line]) == if IsDone(line) then Outcome([], true)
                               else if IsData(line) then Outcome([line], false)
                               else Outcome([], false)
  {
    assert Deliver([]) == Outcome([], false);
  }

  /** A printed line, and the empty line after it, scan back to that line alone. */
  lemma {:induction false} OutcomeOfPrinted(line: Bytes, rest: Bytes)
    requires LfFree(line)
    ensures StreamOutcome(line + ([LF] + ([LF] + rest))) == Then(Deliver([line]), StreamOutcome(rest))
  {
    SplitLine(line, [LF] + rest);
    SplitLine([], rest);
    assert [] + ([LF] + rest) == [LF] + rest;
    DeliverAppend([line], Split([LF] + rest));
    DeliverAppend([[]], Split(rest));
    DeliverOne([]);
  }

  /** An event and the end of the stream, by their bytes; what comes after the end does not matter. */
  lemma {:induction false} DoneEndsStream(x: Bytes, rest: Bytes)
    requires '\n' !in x && x != "[DONE]"
    ensures StreamOutcome("data: " + x + "\n\ndata: [DONE]\n\n" + rest) == Outcome(["data: " + x], true)
  {
    var line, done, stream := "data: " + x, "data: [DONE]", "data: " + x + "\n\ndata: [DONE]\n\n" + rest;
    assert stream == line + ([LF] + ([LF] + (done + ([LF] + ([LF] + rest)))));
    assert line[6..] == x && LfFree(line) && LfFree(done);
    EventLine(line);
    OutcomeOfPrinted(line, done + ([LF] + ([LF] + rest)));
    OutcomeOfPrinted(done, rest);
    DeliverOne(line);
    DeliverOne(done);
  }

  lemma {:induction false} OutcomeAfterLineEnd(s: Bytes, lines: seq<Bytes>, rest: Bytes)
    requires EndsWithLf(s)
    requires Deliver(lines) == StreamOutcome([] + rest)
    ensures Deliver(Split(s) + lines) == StreamOutcome(s + rest)
  {
    OpenAtLineEnd(s);
    OutcomeInTwoParts(s, rest);
    DeliverAppend(Split(s), lines);
    DeliverOne([]);
  }

  lemma {:induction false} OutcomeAfterBreak(s: Bytes, lines: seq<Bytes>, rest: Bytes)
    requires Deliver(lines) == StreamOutcome([] + rest)
    ensures Deliver(Split(s) + lines) == StreamOutcome(s + BreakBefore(rest))
  {
    SplitPiecesLfFree(s);
    OutcomeInTwoParts(s, BreakBefore(rest));
    DeliverAppend(Split(s), lines);
    DeliverOpenLine(Open(s), rest);
    assert [] + rest == rest;
  }

  /** Only the reads after the last byte may be empty, and only from the last byte on may they fail. */
  predicate WellBehaved(script: seq<Read>) {
    forall i :: 0 <= i < |script| && (script[i].data == [] || script[i].err) ==> Data(script[i + 1..]) == []
  }

  lemma {:induction false} EffectiveOfNothing(atStart: bool, script: seq<Read>)
    requires Data(script) == []
    ensures Effective(atStart, script) == []
    decreases |script|
  {
    if script != [] {
      EffectiveOfNothing(true, script[1..]);
    }
  }

  lemma {:induction false} WellBehavedEffective(atStart: bool, script: seq<Read>)
    requires WellBehaved(script)
    ensures Effective(atStart, script) == Data(script)
    decreases |script|
  {
    if script != [] {
      var rest := script[1..];
      assert script[0 + 1..] == rest;
      assert WellBehaved(rest) by {
        forall i | 0 <= i < |rest| && (rest[i].data == [] || rest[i].err) ensures Data(rest[i + 1..]) == [] {
          assert rest[i] == script[i + 1] && rest[i + 1..] == script[i + 1 + 1..];
        }
      }
      if script[0].data == [] || script[0].err {
        EffectiveOfNothing(true, rest);
      } else {
        WellBehavedEffective(EndsWithLf(script[0].data), rest);
      }
    }
  }

  /** What is delivered depends on the bytes alone, not on how the reads cut them up. */
  lemma {:induction false} ChunkingIndependence(script: seq<Read>)
    requires WellBehaved(script)
    ensures ReadOutcome(script) == StreamOutcome(Data(script))
    ensures ReadOutcome(script).lines == DataLines(Split(Data(script))[..FirstDone(Split(Data(script)))])
    ensures ReadOutcome(script).completed <==> "data: [DONE]" in Split(Data(script))
  {
    ReadLinesOutcome([], script);
    WellBehavedEffective(true, script);
    assert [] + Data(script) == Data(script);
    DeliverIsDataBeforeDone(Split(Data(script)));
  }

  // A read of no bytes before the end of the stream

  predicate Plain(script: seq<Read>) {
    forall i :: 0 <= i < |script| ==> script[i].data != [] && !script[i].err
  }

  lemma {:induction false} EffectiveAfterPlain(atStart: bool, before: seq<Read>, after: seq<Read>)
    requires Plain(before)
    ensures Effective(atStart, before + after)
         == Data(before) + Effective(if before == [] then atStart else EndsWithLf(Data(before)), after)
    decreases |before|
  {
    if before == [] {
      assert before + after == after;
    } else {
      var data, rest := before[0].data, before[1..];
      var atEnd := EndsWithLf(data);
      assert (before + after)[1..] == rest + after;
      EffectiveAfterPlain(atEnd, rest, after);
      DataOfPlain(rest);
      var tail := Effective(if rest == [] then atEnd else EndsWithLf(Data(rest)), after);
      assert Effective(atStart, before + after) == data + (Data(rest) + tail);
      Associate(data, Data(rest), tail);
      EndOfAppend(data, Data(rest));
    }
  }

  lemma {:induction false} EndOfAppend(a: Bytes, b: Bytes)
    ensures EndsWithLf(a + b) == if b == [] then EndsWithLf(a) else EndsWithLf(b)
  {
    if b == [] {
      assert a + b == a;
    }
  }

  lemma {:induction false} DataOfPlain(script: seq<Read>)
    requires Plain(script)
    ensures Data(script) == [] <==> script == []
  {
  }

  /** A read without bytes after `before` ends a line that is open, and the stream when no line is. */
  lemma {:induction false} ZeroReadOutcome(before: seq<Read>, after: seq<Read>)
    requires Plain(before) && Plain(after)
    ensures ReadOutcome(before + ([ZERO_READ] + after))
         == StreamOutcome(Data(before) + if Open(Data(before)) == [] then [] else BreakBefore(Data(after)))
  {
    var s, script := Data(before), before + ([ZERO_READ] + after);
    ReadLinesOutcome([], script);
    EffectiveAfterPlain(true, before, [ZERO_READ] + after);
    OpenAtLineEnd(s);
    DataOfPlain(before);
    assert ([ZERO_READ] + after)[1..] == after;
    assert WellBehaved(after);
    WellBehavedEffective(true, after);
    assert [] + Effective(true, script) == Effective(true, script);
  }

  /** The two outcomes differ on `data: x` as the next bytes, unless `[DONE]` has gone by. */
  lemma {:induction false} ZeroReadHarm(s: Bytes)
    requires !Deliver(Complete(s)).completed
    ensures StreamOutcome(s + "data: x") != StreamOutcome(s + if Open(s) == [] then [] else BreakBefore("data: x"))
  {
    var x: Bytes := "data: x";
    var line, done := Open(s), Deliver(Complete(s));
    SplitPiecesLfFree(s);
    OutcomeInTwoParts(s, x);
    SplitLfFree(line + x);
    if line == [] {
      OutcomeInTwoParts(s, []);
      assert s + [] == s && line + x == x;
      DeliverOne(x);
      DeliverOne([]);
      assert (done.lines + [x])[|done.lines|] == x;
    } else {
      OutcomeInTwoParts(s, BreakBefore(x));
      DeliverOpenLine(line, x);
      SplitLfFree(x);
      ZeroReadHarmOpen(line, done.lines);
    }
  }

  lemma {:induction false} ZeroReadHarmOpen(line: Bytes, delivered: seq<Bytes>)
    requires LfFree(line) && line != []
    ensures Then(Outcome(delivered, false), Deliver([line + "data: x"]))
         != Then(Outcome(delivered, false), Then(Deliver([line]), Deliver(["data: x"])))
  {
    var x: Bytes := "data: x";
    DeliverOne(x);
    DeliverOne(line);
    DeliverOne(line + x);
    assert |line + x| > |x| && (line + x)[|line + x| - 1] == 'x';
    assert Deliver([x]) == Outcome([x], false);
    var left, right := Deliver([line + x]), Then(Deliver([line]), Deliver([x]));
    assert !left.completed;
    if !IsDone(line) {
      assert right.lines[|right.lines| - 1] == x;
      assert right.lines != left.lines;
      assert (delivered + left.lines)[|delivered|..] == left.lines;
      assert (delivered + right.lines)[|delivered|..] == right.lines;
    }
  }

  /**
   A read without bytes and without an error changes nothing, whatever follows it, exactly when
   the line `data: [DONE]` has been read to its end before.
   */
  lemma {:induction false} ZeroReadHarmlessIffDone(before: seq<Read>)
    requires Plain(before)
    ensures (forall after: seq<Read> :: Plain(after) ==>
              ReadOutcome(before + ([ZERO_READ] + after)) == StreamOutcome(Data(before) + Data(after)))
       <==> "data: [DONE]" in Complete(Data(before))
  {
    var s := Data(before);
    DeliverIsDataBeforeDone(Complete(s));
    if Deliver(Complete(s)).completed {
      forall after: seq<Read> | Plain(after)
        ensures ReadOutcome(before + ([ZERO_READ] + after)) == StreamOutcome(s + Data(after))
      {
        var other := if Open(s) == [] then [] else BreakBefore(Data(after));
        ZeroReadOutcome(before, after);
        SplitConcat(s, Data(after));
        SplitConcat(s, other);
        DeliverAppend(Complete(s), Split(Open(s) + Data(after)));
        DeliverAppend(Complete(s), Split(Open(s) + other));
      }
    } else {
      var after := [Read("data: x", false)];
      DataOfOne(after[0]);
      assert Plain(after);
      ZeroReadHarm(s);
      ZeroReadOutcome(before, after);
    }
  }

  /** A concrete stream that such a read falsifies: the line `data: ab` comes out as `data: a`. */
  lemma {:induction false} ZeroReadSplitsLine()
    ensures ReadOutcome([Read("data: a", false)] + ([ZERO_READ] + [Read("b\n", false)])).lines == ["data: a"]
    ensures StreamOutcome("data: a" + "b\n").lines == ["data: ab"]
  {
    assert "b\n" == "b" + [LF] && "data: a" + "b\n" == "data: ab" + [LF];
    ZeroReadBreaks("data: a", "b", "b\n");
    OneLine("data: ab");
    DeliverOne("data: ab");
  }

  /** An event line cut in two by such a read comes out as its first part, when the second is no event line. */
  lemma {:induction false} ZeroReadBreaks(a: Bytes, tail: Bytes, b: Bytes)
    requires LfFree(a) && IsData(a) && !IsDone(a) && LfFree(tail) && !IsData(tail) && b == tail + [LF]
    ensures ReadOutcome([Read(a, false)] + ([ZERO_READ] + [Read(b, false)])) == Outcome([a], false)
  {
    var before, after := [Read(a, false)], [Read(b, false)];
    DataOfOne(before[0]);
    DataOfOne(after[0]);
    ZeroReadOutcome(before, after);
    SplitLfFree(a);
    BrokenLine(a, tail, b);
  }

  lemma {:induction false} BrokenLine(a: Bytes, tail: Bytes, b: Bytes)
    requires LfFree(a) && IsData(a) && !IsDone(a) && LfFree(tail) && !IsData(tail) && b == tail + [LF]
    ensures StreamOutcome(a + BreakBefore(b)) == Outcome([a], false)
  {
    DeliverOpenLine(a, b);
    DeliverOne(a);
    DeliverOne(tail);
    OneLine(tail);
  }

  lemma {:induction false} OneLine(line: Bytes)
    requires LfFree(line)
    ensures StreamOutcome(line + [LF]) == Deliver([line])
  {
    SplitLine(line, []);
    assert [LF] + [] == [LF];
    DeliverAppend([line], [[]]);
    DeliverOne([]);
  }
}
