/** StreamingFileWriter of async_io.cpp in its synchronous mode. */
module StreamingWriter {

  import opened Common

  type Bytes = seq<bv8>

  /** `chunks` are the writes the file stream has received, in order. */
  datatype Writer = Writer(chunkSize: nat, open: bool, buffer: Bytes, chunks: seq<Bytes>, total: nat)

  function Zeros(n: nat): (z: Bytes)
    ensures |z| == n && forall i :: 0 <= i < n ==> z[i] == 0
  {
    seq(n, _ => 0)
  }

  /** The constructor sizes the buffer with `chunkSize` zero bytes instead of reserving them. */
  function Init(chunkSize: nat, open: bool): Writer {
    Writer(chunkSize, open, Zeros(chunkSize), [], 0)
  }

  /** The whole chunks of `all`. */
  function Blocks(all: Bytes, chunk: nat): (b: seq<Bytes>)
    requires chunk > 0
    ensures forall i :: 0 <= i < |b| ==> |b[i]| == chunk
  {
    if |all| < chunk then [] else [all[..chunk]] + Blocks(all[chunk..], chunk)
  }

  /** What is left after the whole chunks. */
  function Rest(all: Bytes, chunk: nat): (r: Bytes)
    requires chunk > 0
    ensures |r| < chunk
  {
    if |all| < chunk then all else Rest(all[chunk..], chunk)
  }

  /** `write`: the buffer and the data together are cut into chunks; the rest is buffered. */
  function Write(w: Writer, data: Bytes): Writer
    requires w.chunkSize > 0
  {
    if data == [] then w
    else
      w.(buffer := Rest(w.buffer + data, w.chunkSize),
         chunks := w.chunks + (if w.open then Blocks(w.buffer + data, w.chunkSize) else []),
         total := w.total + |data|)
  }

  /** `flush` */
  function Flush(w: Writer): Writer {
    if w.buffer == [] then w
    else w.(buffer := [], chunks := w.chunks + (if w.open then [w.buffer] else []))
  }

  // ---------------------------------------------------------------- conservation

  lemma {:induction false} BlocksAndRest(all: Bytes, chunk: nat)
    requires chunk > 0
    ensures Flatten(Blocks(all, chunk)) + Rest(all, chunk) == all
  {
    if |all| >= chunk {
      BlocksAndRest(all[chunk..], chunk);
      var b := Blocks(all, chunk);
      assert b[1..] == Blocks(all[chunk..], chunk);
      assert all == all[..chunk] + all[chunk..];
    }
  }

  /** What the stream has, followed by what the buffer has. */
  function Held(w: Writer): Bytes { Flatten(w.chunks) + w.buffer }

  lemma WriteConserves(w: Writer, data: Bytes)
    requires w.chunkSize > 0 && w.open
    ensures Held(Write(w, data)) == Held(w) + data
  {
    if data == [] {
      assert Held(w) + data == Held(w);
    } else {
      hide Blocks, Rest, Flatten;
      BlocksAndRest(w.buffer + data, w.chunkSize);
      FlattenAppend(w.chunks, Blocks(w.buffer + data, w.chunkSize));
      Assoc(Flatten(w.chunks), Flatten(Blocks(w.buffer + data, w.chunkSize)), Rest(w.buffer + data, w.chunkSize));
      Assoc(Flatten(w.chunks), w.buffer, data);
    }
  }

  /** Every chunk a `write` emits has the chunk size, and unless it wrote nothing it leaves less than
      a chunk in the buffer. */
  lemma EmittedAreWhole(w: Writer, data: Bytes, i: nat)
    requires w.chunkSize > 0 && w.open
    ensures var t := Write(w, data);
            && w.chunks <= t.chunks
            && (|w.chunks| <= i < |t.chunks| ==> |t.chunks[i]| == w.chunkSize)
            && (data != [] ==> |t.buffer| < w.chunkSize)
  {
  }

  lemma FlushConserves(w: Writer)
    requires w.open
    ensures Held(Flush(w)) == Held(w)
  {
    if w.buffer != [] {
      FlattenAppend(w.chunks, [w.buffer]);
      assert Flatten([w.buffer]) == w.buffer + Flatten([]);
    }
  }

  datatype Call = WriteCall(data: Bytes) | FlushCall

  function Run(w: Writer, calls: seq<Call>): (r: Writer)
    requires w.chunkSize > 0
    ensures r.chunkSize == w.chunkSize && r.open == w.open
    decreases |calls|
  {
    if calls == [] then w
    else Run(if calls[0].WriteCall? then Write(w, calls[0].data) else Flush(w), calls[1..])
  }

  function Input(calls: seq<Call>): Bytes {
    if calls == [] then [] else (if calls[0].WriteCall? then calls[0].data else []) + Input(calls[1..])
  }

  /** Over any sequence of `write` and `flush` calls on an open stream nothing is lost, repeated
      or reordered: stream and buffer hold the initial buffer followed by all input. */
  lemma {:induction false} RunConserves(w: Writer, calls: seq<Call>)
    requires w.chunkSize > 0 && w.open
    ensures Held(Run(w, calls)) == Held(w) + Input(calls)
    ensures Run(w, calls).total == w.total + |Input(calls)|
    decreases |calls|
  {
    if calls != [] {
      var c := calls[0];
      if c.WriteCall? { WriteConserves(w, c.data); } else { FlushConserves(w); }
      var next := if c.WriteCall? then Write(w, c.data) else Flush(w);
      RunConserves(next, calls[1..]);
      if c.WriteCall? {
        Assoc(Held(w), c.data, Input(calls[1..]));
      }
    }
  }

  /** A stream that is not open gets nothing: what is written is counted, cut and thrown away. */
  lemma {:induction false} NothingWithoutStream(w: Writer, calls: seq<Call>)
    requires w.chunkSize > 0 && !w.open
    ensures var t := Run(w, calls);
            && t.chunks == w.chunks && t.total == w.total + |Input(calls)|
            && t.buffer == Run(w.(open := true), calls).buffer
    decreases |calls|
  {
    if calls != [] {
      hide Blocks, Rest;
      var o := w.(open := true);
      var next := if calls[0].WriteCall? then Write(w, calls[0].data) else Flush(w);
      var withStream := if calls[0].WriteCall? then Write(o, calls[0].data) else Flush(o);
      assert w.chunks + [] == w.chunks && next.buffer == withStream.buffer;
      NothingWithoutStream(next, calls[1..]);
      BufferAlone(next.(open := true), withStream, calls[1..]);
    }
  }

  lemma {:induction false} BufferAlone(v: Writer, w: Writer, calls: seq<Call>)
    requires v.chunkSize == w.chunkSize > 0 && v.buffer == w.buffer
    ensures Run(v, calls).buffer == Run(w, calls).buffer
    decreases |calls|
  {
    if calls != [] {
      hide Blocks, Rest;
      var c := calls[0];
      BufferAlone(if c.WriteCall? then Write(v, c.data) else Flush(v),
                  if c.WriteCall? then Write(w, c.data) else Flush(w), calls[1..]);
    }
  }

  lemma HeldByInit(chunkSize: nat)
    ensures Held(Init(chunkSize, true)) == Zeros(chunkSize)
  {
  }

  /** What a file opened, written in any pieces, flushed at will and closed contains: the input
      behind `chunkSize` zero bytes, so never just the input. */
  lemma ClosedFile(chunkSize: nat, calls: seq<Call>)
    requires chunkSize > 0
    ensures var file := Flatten(Flush(Run(Init(chunkSize, true), calls)).chunks);
            && file == Zeros(chunkSize) + Input(calls) && file != Input(calls)
            && Flush(Run(Init(chunkSize, true), calls)).total == |Input(calls)|
  {
    hide Run, Input, Flatten;
    var w := Run(Init(chunkSize, true), calls);
    RunConserves(Init(chunkSize, true), calls);
    FlushConserves(w);
    HeldByInit(chunkSize);
    var file := Flatten(Flush(w).chunks);
    assert Flush(w).buffer == [] && file + [] == file;
    assert |file| == chunkSize + |Input(calls)|;
  }

  // ---------------------------------------------------------------- the split does not matter

  lemma FirstBlock(block: Bytes, rest: Bytes, chunk: nat)
    requires |block| == chunk > 0
    ensures Blocks(block + rest, chunk) == [block] + Blocks(rest, chunk)
    ensures Rest(block + rest, chunk) == Rest(rest, chunk)
  {
    assert (block + rest)[..chunk] == block && (block + rest)[chunk..] == rest;
  }

  lemma {:induction false} CutTwice(all: Bytes, more: Bytes, chunk: nat)
    requires chunk > 0
    ensures Blocks(all + more, chunk) == Blocks(all, chunk) + Blocks(Rest(all, chunk) + more, chunk)
    ensures Rest(all + more, chunk) == Rest(Rest(all, chunk) + more, chunk)
  {
    hide Flatten;
    if |all| < chunk {
      assert Blocks(all, chunk) == [];
      assert [] + Blocks(all + more, chunk) == Blocks(all + more, chunk);
    } else {
      var head, tail := all[..chunk], all[chunk..];
      CutTwice(tail, more, chunk);
      assert all == head + tail && all + more == head + (tail + more);
      FirstBlock(head, tail, chunk);
      FirstBlock(head, tail + more, chunk);
      Assoc([head], Blocks(tail, chunk), Blocks(Rest(tail, chunk) + more, chunk));
    }
  }

  /** Two writes are one write of both: the chunks the stream gets depend on the input alone. */
  lemma WriteTwice(w: Writer, a: Bytes, b: Bytes)
    requires w.chunkSize > 0
    ensures Write(Write(w, a), b) == Write(w, a + b)
  {
    hide Blocks, Rest;
    if a == [] {
      assert a + b == b;
    } else if b == [] {
      assert a + b == a;
    } else {
      CutTwice(w.buffer + a, b, w.chunkSize);
      assert w.buffer + a + b == w.buffer + (a + b);
      var x, y := Blocks(w.buffer + a, w.chunkSize), Blocks(Rest(w.buffer + a, w.chunkSize) + b, w.chunkSize);
      assert w.chunks + x + y == w.chunks + (x + y);
    }
  }

  /** The chunks `done` have been cut off `all` and `left` remains. */
  ghost predicate CutSoFar(all: Bytes, done: seq<Bytes>, left: Bytes, chunk: nat)
    requires chunk > 0
  {
    Blocks(all, chunk) == done + Blocks(left, chunk) && Rest(all, chunk) == Rest(left, chunk)
  }

  lemma CutNothing(all: Bytes, chunk: nat)
    requires chunk > 0
    ensures CutSoFar(all, [], all, chunk)
  {
    assert [] + Blocks(all, chunk) == Blocks(all, chunk);
  }

  lemma CutNext(all: Bytes, done: seq<Bytes>, block: Bytes, left: Bytes, chunk: nat)
    requires chunk == |block| > 0 && CutSoFar(all, done, block + left, chunk)
    ensures CutSoFar(all, done + [block], left, chunk)
  {
    FirstBlock(block, left, chunk);
    Assoc(done, [block], Blocks(left, chunk));
  }

  lemma CutAll(all: Bytes, done: seq<Bytes>, left: Bytes, chunk: nat)
    requires |left| < chunk && CutSoFar(all, done, left, chunk)
    ensures Blocks(all, chunk) == done && Rest(all, chunk) == left
  {
  }

  // ---------------------------------------------------------------- the class

  class StreamingFileWriter {
    const chunkSize: nat
    var isOpen: bool
    var buffer: Bytes
    var chunks: seq<Bytes>
    var totalWritten: nat

    ghost function View(): Writer
      reads this
    {
      Writer(chunkSize, isOpen, buffer, chunks, totalWritten)
    }

    constructor (chunkSize: nat)
      ensures View() == Init(chunkSize, false)
    {
      this.chunkSize := chunkSize;
      isOpen, buffer, chunks, totalWritten := false, Zeros(chunkSize), [], 0;
    }

    /** `open`, with the outcome of opening the file. */
    method Open(succeeds: bool) returns (ok: bool)
      modifies this`isOpen
      ensures ok == isOpen == succeeds
    {
      isOpen := succeeds;
      ok := succeeds;
    }

    /** `flushBuffer` */
    method FlushBuffer()
      modifies this`buffer, this`chunks
      ensures View() == Flush(old(View()))
    {
      if buffer == [] {
        return;
      }
      if isOpen {
        chunks := chunks + [buffer];
      }
      buffer := [];
    }

    /** `write`.  With a chunk size of zero the loop would not end. */
    method WriteData(data: Bytes) returns (size: nat)
      requires chunkSize > 0 && |buffer| <= chunkSize
      modifies this`buffer, this`chunks, this`totalWritten
      ensures View() == Write(old(View()), data) && size == |data|
    {
      var ptr := 0;
      var remaining := |data|;
      ghost var all := buffer + data;
      ghost var done: seq<Bytes> := [];
      assert data[0..] == data;
      hide CutSoFar, Blocks, Rest;
      CutNothing(all, chunkSize);
      while remaining > 0
        invariant 0 <= remaining && ptr + remaining == |data| && |buffer| <= chunkSize
        invariant totalWritten == old(totalWritten) && isOpen == old(isOpen)
        invariant ptr == |data| && data != [] ==> |buffer| < chunkSize
        invariant data == [] ==> View() == old(View())
        invariant chunks == old(chunks) + (if isOpen then done else [])
        invariant CutSoFar(all, done, buffer + data[ptr..], chunkSize)
        decreases remaining, |buffer|
      {
        var available := chunkSize - |buffer|;
        var toWrite := if remaining < available then remaining else available;
        ghost var before := buffer + data[ptr..];
        buffer := buffer + data[ptr..ptr + toWrite];
        ptr := ptr + toWrite;
        remaining := remaining - toWrite;
        assert buffer + data[ptr..] == before;
        if |buffer| >= chunkSize {
          CutNext(all, done, buffer, data[ptr..], chunkSize);
          done := done + [buffer];
          FlushBuffer();
          assert buffer + data[ptr..] == data[ptr..];
        }
      }
      assert buffer + data[ptr..] == buffer;
      if data != [] { CutAll(all, done, buffer, chunkSize); }
      totalWritten := totalWritten + |data|;
      size := |data|;
    }
  }

}
