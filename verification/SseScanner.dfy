/** The scanner over an `io.Reader`: its buffer, its carried line and its queue of pending slices. */
module SseScanner {
  import opened Lines
  import opened SseStream

  const BUFFER_SIZE: nat := 4096

  // Chunk metadata

  datatype ChunkMeta = ChunkMeta(id: string, model: string, finishReason: string)

  /** The two JSON readers of a payload, left uninterpreted. */
  datatype ChunkParser = ChunkParser(delta: Bytes -> string, meta: Bytes -> ChunkMeta)

  datatype Metadata = Metadata(parsed: bool, id: string, model: string, finishReason: string)

  const NO_METADATA := Metadata(false, "", "", "")

  function Absorb(m: Metadata, c: ChunkMeta): Metadata {
    var naming := !m.parsed && (c.id != "" || c.model != "");
    var named := if naming then Metadata(true, c.id, c.model, m.finishReason) else m;
    if c.finishReason != "" then named.(finishReason := c.finishReason) else named
  }

  function AbsorbLines(p: ChunkParser, m: Metadata, lines: seq<Bytes>): Metadata
    decreases |lines|
  {
    if lines == [] then m
    else AbsorbLines(p, if IsData(lines[0]) then Absorb(m, p.meta(Payload(lines[0]))) else m, lines[1..])
  }

  predicate AllData(lines: seq<Bytes>) {
    forall k :: 0 <= k < |lines| ==> IsData(lines[k])
  }

  function MetaOf(p: ChunkParser, line: Bytes): ChunkMeta
    requires IsData(line)
  {
    p.meta(Payload(line))
  }

  /** The identifier and the model come together from the first chunk that carries either. */
  lemma {:induction false} NamedByFirst(p: ChunkParser, m: Metadata, lines: seq<Bytes>, k: nat)
    requires AllData(lines) && k < |lines| && !m.parsed
    requires MetaOf(p, lines[k]).id != "" || MetaOf(p, lines[k]).model != ""
    requires forall j :: 0 <= j < k ==> MetaOf(p, lines[j]).id == "" && MetaOf(p, lines[j]).model == ""
    ensures var r := AbsorbLines(p, m, lines);
            r.parsed && r.id == MetaOf(p, lines[k]).id && r.model == MetaOf(p, lines[k]).model
    decreases |lines|
  {
    var next := Absorb(m, MetaOf(p, lines[0]));
    if k == 0 {
      NamedStays(p, next, lines[1..]);
    } else {
      assert MetaOf(p, lines[0]).id == "";
      NamedByFirst(p, next, lines[1..], k - 1);
    }
  }

  lemma {:induction false} NamedStays(p: ChunkParser, m: Metadata, lines: seq<Bytes>)
    requires m.parsed
    ensures var r := AbsorbLines(p, m, lines); r.parsed && r.id == m.id && r.model == m.model
    decreases |lines|
  {
    if lines != [] {
      NamedStays(p, if IsData(lines[0]) then Absorb(m, p.meta(Payload(lines[0]))) else m, lines[1..]);
    }
  }

  /** Without such a chunk both stay empty. */
  lemma {:induction false} NeverNamed(p: ChunkParser, m: Metadata, lines: seq<Bytes>)
    requires AllData(lines) && !m.parsed
    requires forall j :: 0 <= j < |lines| ==> MetaOf(p, lines[j]).id == "" && MetaOf(p, lines[j]).model == ""
    ensures var r := AbsorbLines(p, m, lines); !r.parsed && r.id == m.id && r.model == m.model
    decreases |lines|
  {
    if lines != [] {
      assert MetaOf(p, lines[0]).id == "";
      NeverNamed(p, Absorb(m, MetaOf(p, lines[0])), lines[1..]);
    }
  }

  /** The finish reason is the last one that is not empty. */
  lemma {:induction false} FinishIsLast(p: ChunkParser, m: Metadata, lines: seq<Bytes>, k: nat)
    requires AllData(lines) && k <= |lines|
    requires k < |lines| ==> MetaOf(p, lines[k]).finishReason != ""
    requires forall j :: k < j < |lines| ==> MetaOf(p, lines[j]).finishReason == ""
    requires k == |lines| ==> forall j :: 0 <= j < |lines| ==> MetaOf(p, lines[j]).finishReason == ""
    ensures AbsorbLines(p, m, lines).finishReason
         == if k < |lines| then MetaOf(p, lines[k]).finishReason else m.finishReason
    decreases |lines|
  {
    if lines != [] {
      var next, rest := Absorb(m, MetaOf(p, lines[0])), lines[1..];
      assert forall j :: 0 <= j < |rest| ==> MetaOf(p, rest[j]) == MetaOf(p, lines[j + 1]);
      if k == 0 {
        FinishIsLast(p, next, rest, |rest|);
      } else {
        FinishIsLast(p, next, rest, k - 1);
      }
    }
  }

  function Deltas(p: ChunkParser, lines: seq<Bytes>): string {
    if lines == [] then ""
    else (if IsData(lines[0]) then p.delta(Payload(lines[0])) else "") + Deltas(p, lines[1..])
  }

  // The reader

  predicate FitsBuffer(script: seq<Read>) {
    forall i :: 0 <= i < |script| ==> |script[i].data| <= BUFFER_SIZE
  }

  /** A reader that gives the results of `script` one by one, and no bytes and an error after them. */
  class Reader {
    var script: seq<Read>

    constructor (script: seq<Read>)
      ensures this.script == script
    {
      this.script := script;
    }

    method Read(buffer: array<char>) returns (n: nat, err: bool)
      requires script != [] ==> |script[0].data| <= buffer.Length
      modifies this, buffer
      ensures n <= buffer.Length
      ensures old(script) == [] ==> script == [] && n == 0 && err
      ensures old(script) != [] ==> script == old(script)[1..] && err == old(script)[0].err
      ensures old(script) != [] ==> n == |old(script)[0].data| && buffer[..n] == old(script)[0].data
    {
      if script == [] {
        return 0, true;
      }
      var data := script[0].data;
      n, err := |data|, script[0].err;
      script := script[1..];
      forall i | 0 <= i < n {
        buffer[i] := data[i];
      }
    }
  }

  // Slices

  /** A slice either lies in the scanner's buffer or in memory that nothing writes to again. */
  datatype Slice = InBuffer(lo: nat, hi: nat) | Owned(bytes: Bytes)

  predicate InRange(slice: Slice, size: nat) {
    slice.InBuffer? ==> slice.lo <= slice.hi <= size
  }

  function Content(slice: Slice, memory: Bytes): Bytes
    requires InRange(slice, |memory|)
  {
    match slice
    case InBuffer(lo, hi) => memory[lo..hi]
    case Owned(bytes) => bytes
  }

  predicate AllInRange(slices: seq<Slice>, size: nat) {
    forall k :: 0 <= k < |slices| ==> InRange(slices[k], size)
  }

  function Contents(slices: seq<Slice>, memory: Bytes): (lines: seq<Bytes>)
    requires AllInRange(slices, |memory|)
    ensures |lines| == |slices|
  {
    if slices == [] then [] else [Content(slices[0], memory)] + Contents(slices[1..], memory)
  }

  lemma {:induction false} ContentsAppend(a: seq<Slice>, b: seq<Slice>, memory: Bytes)
    requires AllInRange(a, |memory|) && AllInRange(b, |memory|)
    ensures Contents(a + b, memory) == Contents(a, memory) + Contents(b, memory)
  {
    if a == [] {
      assert a + b == b;
    } else {
      ContentsAppend(a[1..], b, memory);
      assert (a + b)[1..] == a[1..] + b;
    }
  }

  /** `bytes.Split` on a part of the buffer: the pieces are parts of the buffer too. */
  function SplitRange(memory: Bytes, lo: nat, hi: nat): (slices: seq<Slice>)
    requires lo <= hi <= |memory|
    ensures |slices| >= 1 && AllInRange(slices, |memory|)
    ensures slices[0].InBuffer? && slices[0].lo == lo
    decreases hi - lo
  {
    if lo == hi then [InBuffer(lo, lo)]
    else
      var rest := SplitRange(memory, lo + 1, hi);
      if memory[lo] == LF then [InBuffer(lo, lo)] + rest
      else [InBuffer(lo, rest[0].hi)] + rest[1..]
  }

  lemma {:induction false} SplitRangeContents(memory: Bytes, lo: nat, hi: nat)
    requires lo <= hi <= |memory|
    ensures Contents(SplitRange(memory, lo, hi), memory) == Split(memory[lo..hi])
    decreases hi - lo
  {
    if lo < hi {
      SplitRangeContents(memory, lo + 1, hi);
      assert memory[lo..hi] == [memory[lo]] + memory[lo + 1..hi];
      SplitCons(memory[lo], memory[lo + 1..hi]);
      var rest := SplitRange(memory, lo + 1, hi);
      if memory[lo] != LF {
        assert memory[lo..rest[0].hi] == [memory[lo]] + memory[lo + 1..rest[0].hi];
        assert ([InBuffer(lo, rest[0].hi)] + rest[1..])[1..] == rest[1..];
      } else {
        assert ([InBuffer(lo, lo)] + rest)[1..] == rest;
      }
    }
  }

  function AllOwned(lines: seq<Bytes>): (slices: seq<Slice>)
    ensures |slices| == |lines|
    ensures forall k :: 0 <= k < |slices| ==> slices[k] == Owned(lines[k])
  {
    if lines == [] then [] else [Owned(lines[0])] + AllOwned(lines[1..])
  }

  lemma {:induction false} AllOwnedContents(lines: seq<Bytes>, memory: Bytes)
    ensures Contents(AllOwned(lines), memory) == lines
  {
    if lines != [] {
      AllOwnedContents(lines[1..], memory);
    }
  }

  function SplitSlice(chunk: Slice, memory: Bytes): (slices: seq<Slice>)
    requires InRange(chunk, |memory|)
    ensures |slices| >= 1 && AllInRange(slices, |memory|)
  {
    match chunk
    case InBuffer(lo, hi) => SplitRange(memory, lo, hi)
    case Owned(bytes) => AllOwned(Split(bytes))
  }

  lemma {:induction false} SplitSliceContents(chunk: Slice, memory: Bytes)
    requires InRange(chunk, |memory|)
    ensures Contents(SplitSlice(chunk, memory), memory) == Split(Content(chunk, memory))
  {
    match chunk
    case InBuffer(lo, hi) => SplitRangeContents(memory, lo, hi);
    case Owned(bytes) => AllOwnedContents(Split(bytes), memory);
  }

  lemma {:induction false} ContentsSplitLast(slices: seq<Slice>, memory: Bytes, front: seq<Slice>, n: nat)
    requires slices != [] && AllInRange(slices, |memory|)
    requires n == |slices| - 1 && front == slices[..n] && AllInRange(front, |memory|)
    ensures Contents(front, memory) == Contents(slices, memory)[..n]
    ensures Content(slices[n], memory) == Contents(slices, memory)[n]
  {
    ContentsAt(slices, memory);
    ContentsAt(front, memory);
    var all, some := Contents(slices, memory), Contents(front, memory);
    forall k | 0 <= k < n
      ensures some[k] == all[k]
    {
      assert front[k] == slices[k];
    }
  }

  lemma {:induction false} ContentsAt(slices: seq<Slice>, memory: Bytes)
    requires AllInRange(slices, |memory|)
    ensures forall k :: 0 <= k < |slices| ==> Contents(slices, memory)[k] == Content(slices[k], memory)
  {
    if slices != [] {
      ContentsAt(slices[1..], memory);
    }
  }

  // The scanner

  class Scanner {
    const parser: ChunkParser
    const reader: Reader
    const buf: array<char>
    var rawLine: Slice
    var lastDelta: string
    var completed: bool
    var timeToFirstChunkMs: int
    var firstChunkSeen: bool
    var pending: seq<Slice>
    var carry: Bytes
    var firstChunkID: string
    var firstChunkModel: string
    var lastFinishReason: string
    var chunkMetaParsed: bool

    ghost predicate Valid()
      reads this, reader, buf
    {
      buf.Length == BUFFER_SIZE
      && InRange(rawLine, BUFFER_SIZE) && AllInRange(pending, BUFFER_SIZE)
      && FitsBuffer(reader.script)
    }

    /** The lines still to be walked through: those queued, then those the coming reads bring. */
    ghost function UpcomingLines(): seq<Bytes>
      requires Valid()
      reads this, reader, buf
    {
      Contents(pending, buf[..]) + ReadLines(carry, reader.script)
    }

    /** What is still to be handed out. */
    ghost function Upcoming(): Outcome
      requires Valid()
      reads this, reader, buf
    {
      Deliver(UpcomingLines())
    }

    function RawLine(): Bytes
      requires Valid()
      reads this, reader, buf
    {
      Content(rawLine, buf[..])
    }

    function Meta(): Metadata
      reads this
    {
      Metadata(chunkMetaParsed, firstChunkID, firstChunkModel, lastFinishReason)
    }

    constructor (parser: ChunkParser, reader: Reader)
      requires FitsBuffer(reader.script)
      ensures Valid() && fresh(buf)
      ensures this.parser == parser && this.reader == reader
      ensures Upcoming() == ReadOutcome(reader.script)
      ensures !completed && Meta() == NO_METADATA && !firstChunkSeen && timeToFirstChunkMs == 0 && buf.Length == 4096
    {
      this.parser, this.reader := parser, reader;
      buf := new char[BUFFER_SIZE];
      rawLine, lastDelta, completed := Owned([]), "", false;
      timeToFirstChunkMs, firstChunkSeen := 0, false;
      pending, carry := [], [];
      firstChunkID, firstChunkModel, lastFinishReason, chunkMetaParsed := "", "", "", false;
      new;
      assert UpcomingLines() == ReadLines([], reader.script);
    }

    /** Advances to the next event line; `elapsedMs` is the time since the request was sent. */
    method Scan(elapsedMs: int) returns (more: bool)
      requires Valid()
      modifies this, reader, buf
      ensures Valid()
      ensures more ==> IsData(RawLine()) && |RawLine()| >= 6 && RawLine()[..6] == "data: "
      ensures more ==> RawLine() != "data: [DONE]"
      ensures more ==> old(Upcoming()) == Outcome([RawLine()] + Upcoming().lines, Upcoming().completed)
      ensures more ==> completed == old(completed) && lastDelta == parser.delta(Payload(RawLine()))
      ensures more ==> Meta() == Absorb(old(Meta()), parser.meta(Payload(RawLine())))
      ensures more ==> firstChunkSeen == (old(firstChunkSeen) || lastDelta != "")
      ensures more ==>
        timeToFirstChunkMs == if !old(firstChunkSeen) && lastDelta != "" then elapsedMs else old(timeToFirstChunkMs)
      ensures !more ==> old(Upcoming()).lines == [] && completed == (old(completed) || old(Upcoming()).completed)
      ensures !more ==> Meta() == old(Meta()) && lastDelta == old(lastDelta)
      ensures !more ==> firstChunkSeen == old(firstChunkSeen) && timeToFirstChunkMs == old(timeToFirstChunkMs)
    {
      ghost var goal := Upcoming();
      while true
        invariant Valid() && Upcoming() == goal
        invariant unchanged(this`completed, this`lastDelta, this`timeToFirstChunkMs, this`firstChunkSeen,
                            this`firstChunkID, this`firstChunkModel, this`lastFinishReason, this`chunkMetaParsed)
        decreases |reader.script|, |carry|
      {
        ghost var script, open := reader.script, carry;
        while |pending| > 0
          invariant Valid() && Upcoming() == goal && reader.script == script && carry == open
          invariant unchanged(this`completed, this`lastDelta, this`timeToFirstChunkMs, this`firstChunkSeen,
                              this`firstChunkID, this`firstChunkModel, this`lastFinishReason, this`chunkMetaParsed)
        {
          ghost var later := Contents(pending[1..], buf[..]) + ReadLines(carry, reader.script);
          var line := pending[0];
          assert UpcomingLines() == [Content(line, buf[..])] + later;
          DeliverOne(Content(line, buf[..]));
          DeliverAppend([Content(line, buf[..])], later);
          pending := pending[1..];
          if IsData(Content(line, buf[..])) {
            var payload := Payload(Content(line, buf[..]));
            if payload == DONE_PAYLOAD {
              completed := true;
              return false;
            }
            Accept(line, payload, elapsedMs);
            return true;
          }
        }
        var atEnd := Fill();
        if atEnd {
          return false;
        }
      }
    }

    /** Records an event line and what the chunk in it says. */
    method Accept(line: Slice, payload: Bytes, elapsedMs: int)
      modifies this`rawLine, this`lastDelta, this`timeToFirstChunkMs, this`firstChunkSeen,
               this`firstChunkID, this`firstChunkModel, this`lastFinishReason, this`chunkMetaParsed
      ensures rawLine == line && lastDelta == parser.delta(payload)
      ensures Meta() == Absorb(old(Meta()), parser.meta(payload))
      ensures firstChunkSeen == (old(firstChunkSeen) || lastDelta != "")
      ensures timeToFirstChunkMs == if !old(firstChunkSeen) && lastDelta != "" then elapsedMs
                                    else old(timeToFirstChunkMs)
    {
      rawLine := line;
      lastDelta := parser.delta(payload);
      var chunk := parser.meta(payload);
      if !chunkMetaParsed && (chunk.id != "" || chunk.model != "") {
        firstChunkID, firstChunkModel, chunkMetaParsed := chunk.id, chunk.model, true;
      }
      if chunk.finishReason != "" {
        lastFinishReason := chunk.finishReason;
      }
      if lastDelta != "" && !firstChunkSeen {
        firstChunkSeen := true;
        timeToFirstChunkMs := elapsedMs;
      }
    }

    /**
     One read into the buffer. No slice of the buffer is queued when it is overwritten, and after
     a read with bytes and an error something is always queued.
     */
    method Fill() returns (atEnd: bool)
      requires Valid() && pending == []
      modifies this`pending, this`carry, reader, buf
      ensures Valid()
      ensures |reader.script| <= |old(reader.script)|
      ensures !atEnd ==> UpcomingLines() == old(UpcomingLines())
      ensures !atEnd ==> |reader.script| < |old(reader.script)| || |carry| < |old(carry)|
      ensures atEnd ==> old(UpcomingLines()) == []
    {
      ghost var script := reader.script;
      assert UpcomingLines() == ReadLines(carry, script);
      var n, err := reader.Read(buf);
      assert FitsBuffer(reader.script);
      if n == 0 {
        if |carry| > 0 {
          Flush();
          return false;
        }
        return true;
      }
      TakeBytes(n, err);
      return false;
    }

    /** Joins the bytes read to the carried line and queues what they complete; with an error also the rest. */
    method TakeBytes(n: nat, err: bool)
      requires Valid() && pending == [] && 0 < n <= BUFFER_SIZE
      modifies this`pending, this`carry
      ensures Valid()
      ensures var chunk := old(carry) + buf[..n];
              if err || EndsWithLf(chunk) then Contents(pending, buf[..]) == Split(chunk) && carry == []
              else Contents(pending, buf[..]) == Complete(chunk) && carry == Open(chunk)
      ensures err ==> |pending| > 0
    {
      ghost var bytes := carry + buf[..n];
      var chunk := InBuffer(0, n);
      if |carry| > 0 {
        chunk := Owned(carry + buf[..n]);
        carry := [];
      }
      assert Content(chunk, buf[..]) == bytes;
      Enqueue(chunk);
      if err {
        CompleteThenOpen(bytes);
        Flush();
      }
    }

    /** Queues the carried line, if there is one. */
    method Flush()
      requires Valid()
      modifies this`pending, this`carry
      ensures Valid() && carry == []
      ensures Contents(pending, buf[..])
           == Contents(old(pending), buf[..]) + if old(carry) == [] then [] else [old(carry)]
    {
      if |carry| > 0 {
        ContentsAppend(pending, [Owned(carry)], buf[..]);
        ContentsAt([Owned(carry)], buf[..]);
        pending := pending + [Owned(carry)];
        carry := [];
      }
    }

    /** Splits `chunk` into lines, queues those that have ended and carries the one that has not. */
    method Enqueue(chunk: Slice)
      requires Valid() && pending == [] && carry == []
      requires InRange(chunk, BUFFER_SIZE) && Content(chunk, buf[..]) != []
      modifies this`pending, this`carry
      ensures Valid()
      ensures EndsWithLf(Content(chunk, buf[..])) ==>
        Contents(pending, buf[..]) == Split(Content(chunk, buf[..])) && carry == []
      ensures !EndsWithLf(Content(chunk, buf[..])) ==>
        Contents(pending, buf[..]) == Complete(Content(chunk, buf[..])) && carry == Open(Content(chunk, buf[..]))
        && carry != []
    {
      var memory := buf[..];
      ghost var bytes := Content(chunk, memory);
      var lines := SplitSlice(chunk, memory);
      SplitSliceContents(chunk, memory);
      if !EndsWithLf(Content(chunk, memory)) {
        var n := |lines| - 1;
        ContentsSplitLast(lines, memory, lines[..n], n);
        carry := Content(lines[n], memory);
        lines := lines[..n];
        OpenOfPartLine(bytes);
        assert Contents(lines, memory) == Complete(bytes) && carry == Open(bytes);
      }
      pending := pending + lines;
      assert pending == lines && buf[..] == memory;
    }
  }
}
