/** microtar's archive: the stream operations as functions of the whole state, the class that
    carries them out, and what a written archive reads back as.

    The stream is a byte sequence with a position.  `pos`, `remaining` and `lastHeader` are the
    32-bit fields of mtar_t and wrap as such; `at` is where the stream really is. */
module TarArchive {
  import opened Common
  import opened Octal
  import opened TarHeader

  datatype Tar = Tar(bytes: seq<Byte>, at: nat, pos: nat, remaining: nat, lastHeader: nat)

  /** An unsigned 32-bit result. */
  function Wrap(n: int): (r: nat)
    ensures r < U32
  {
    n % U32
  }

  function RoundUp(n: nat, incr: nat): nat
    requires 0 < incr
  {
    Wrap(n + (incr - n % incr) % incr)
  }

  lemma RoundUpIsLeastMultiple(n: nat)
    requires n < U32
    ensures RoundUp(n, 512) % 512 == 0
    ensures if n <= U32 - 512 then n <= RoundUp(n, 512) < n + 512 && RoundUp(n, 512) == n + Padding(n)
            else RoundUp(n, 512) == 0
  {
    hide Padding, RoundUp, Wrap;
    var m := n + Padding(n);
    PaddingAligns(n);
    RoundUpIs(n);
    if n <= U32 - 512 { NoWrap(m); } else { NextMultiple(m); }
  }

  lemma RoundUpIs(n: nat)
    ensures RoundUp(n, 512) == Wrap(n + Padding(n))
  {
    hide Wrap;
  }

  lemma PaddingAligns(n: nat)
    ensures Padding(n) < 512 && (n + Padding(n)) % 512 == 0
  {
  }

  lemma NoWrap(n: nat)
    requires n < U32
    ensures Wrap(n) == n
  {
  }

  lemma NextMultiple(m: nat)
    requires m % 512 == 0 && U32 - 512 < m < U32 + 512
    ensures m == U32 && Wrap(m) == 0
  {
  }

  /** How far `n` is from the next record boundary. */
  function Padding(n: nat): nat { (512 - n % 512) % 512 }

  /** `data` written at `at`; a hole before it reads as zeros. */
  function Splice(bytes: seq<Byte>, at: nat, data: seq<Byte>): seq<Byte> {
    if data == [] then bytes
    else (if |bytes| < at then bytes + Zeros(at - |bytes|) else bytes[..at])
         + data
         + (if at + |data| < |bytes| then bytes[at + |data|..] else [])
  }

  function Write(t: Tar, data: seq<Byte>): Tar {
    t.(bytes := Splice(t.bytes, t.at, data), at := t.at + |data|, pos := Wrap(t.pos + |data|))
  }

  /** What a read of `size` bytes delivers: less than asked for at the end of the stream. */
  function Delivered(t: Tar, size: nat): (data: seq<Byte>)
    ensures |data| <= size
  {
    if t.at >= |t.bytes| then []
    else if t.at + size <= |t.bytes| then t.bytes[t.at..t.at + size]
    else t.bytes[t.at..]
  }

  function Read(t: Tar, size: nat): (Tar, Error, seq<Byte>) {
    var data := Delivered(t, size);
    (t.(at := t.at + |data|, pos := Wrap(t.pos + size)), if |data| == size then Success else ReadFail, data)
  }

  function Seek(t: Tar, pos: nat): Tar { t.(at := pos, pos := pos) }

  function Rewind(t: Tar): Tar { Seek(t.(remaining := 0, lastHeader := 0), 0) }

  function WriteHeader(t: Tar, h: Header): Tar
    requires Storable(h)
  {
    Write(t, ToRaw(h)).(remaining := h.size)
  }

  /** The data, and when it was the last of its file the zeros up to the record boundary. */
  function WriteData(t: Tar, data: seq<Byte>): Tar {
    var u := Write(t, data).(remaining := Wrap(t.remaining - |data|));
    if u.remaining == 0 then Write(u, Zeros(Padding(u.pos))) else u
  }

  function Finalize(t: Tar): Tar { Write(t, Zeros(1024)) }

  function ReadHeader(t: Tar, u: Locals): (Tar, Error, Header) {
    var (r, err, data) := Read(t.(lastHeader := t.pos), RECORD);
    if err != Success then (r, err, u.header)
    else
      var (err, h) := FromRaw(data, u);
      (Seek(r, t.pos), err, h)
  }

  function Next(t: Tar, u: Locals): (Tar, Error) {
    var (r, err, h) := ReadHeader(t, u);
    if err != Success then (r, err)
    else (Seek(r, Wrap(r.pos + RoundUp(h.size, 512) + RECORD)), Success)
  }

  function ReadData(t: Tar, size: nat, u: Locals): (Tar, Error, seq<Byte>) {
    var (s, err) :=
      if t.remaining != 0 then (t, Success)
      else
        var (r, err, h) := ReadHeader(t, u);
        if err != Success then (r, err)
        else (Seek(r, Wrap(r.pos + RECORD)).(remaining := h.size), Success);
    if err != Success then (s, err, [])
    else
      var (r, err, data) := Read(s, size);
      if err != Success then (r, err, data)
      else
        var r := r.(remaining := Wrap(r.remaining - size));
        (if r.remaining == 0 then Seek(r, r.lastHeader) else r, Success, data)
  }

  /** A write changes exactly the bytes it covers, lengthens the stream when it goes past the end, and
      fills a hole with zeros; a write of nothing changes nothing. */
  lemma WriteAt(t: Tar, data: seq<Byte>, k: nat)
    ensures var w := Write(t, data);
            && w.at == t.at + |data| && w.pos == (t.pos + |data|) % 0x1_0000_0000
            && |w.bytes| == (if data == [] || t.at + |data| < |t.bytes| then |t.bytes| else t.at + |data|)
            && (k < |w.bytes| ==>
                  w.bytes[k] == if t.at <= k < t.at + |data| then data[k - t.at]
                                else if k < |t.bytes| then t.bytes[k]
                                else 0)
  {
  }

  /** A read delivers the bytes from its position on, as many as asked for or as there are, and succeeds
      exactly when there are enough. */
  lemma ReadAt(t: Tar, size: nat, k: nat)
    ensures var (r, err, data) := Read(t, size);
            && r.bytes == t.bytes && r.at == t.at + |data| && r.pos == (t.pos + size) % 0x1_0000_0000
            && (err == Success <==> size == 0 || t.at + size <= |t.bytes|) && (err == Success || err == ReadFail)
            && |data| <= size && (|data| < size ==> t.at + |data| >= |t.bytes|)
            && (k < |data| ==> t.at + k < |t.bytes| && data[k] == t.bytes[t.at + k])
  {
  }

  /** An error ends the call that meets it and is its answer: a header that cannot be read, with no data
      delivered and no step taken, or a read past the end of the stream, which leaves the data that was
      there and the count of what remains. */
  lemma ErrorsStop(t: Tar, size: nat, u: Locals)
    ensures var (r, err, _) := ReadHeader(t, u);
            err != Success ==> Next(t, u) == (r, err) && (t.remaining == 0 ==> ReadData(t, size, u) == (r, err, []))
    ensures var (r, err, data) := ReadData(t, size, u);
            t.remaining != 0 && size > 0 && t.at + size > |t.bytes| ==>
              && err == ReadFail && r.remaining == t.remaining && r.lastHeader == t.lastHeader
              && data == if t.at <= |t.bytes| then t.bytes[t.at..] else []
  {
    hide FromRaw;
  }

  // ---------------------------------------------------------------- archives

  datatype File = File(name: seq<Byte>, data: seq<Byte>)

  predicate Packable(f: File) { IsText(f.name) && |f.data| < U32 }

  function Entry(f: File): (e: seq<Byte>)
    requires Packable(f)
    ensures |e| % 512 == 0 && |e| == RECORD + |f.data| + Padding(|f.data|)
  {
    hide ToRaw;
    PaddedIsAligned(|f.data|);
    ToRaw(FileHeader(f.name, |f.data|)) + f.data + Zeros(Padding(|f.data|))
  }

  lemma PaddedIsAligned(n: nat)
    ensures (RECORD + n + Padding(n)) % 512 == 0
  {
  }

  ghost predicate AllPackable(files: seq<File>) { forall f :: f in files ==> Packable(f) }

  /** The entries one after another. */
  ghost function Entries(files: seq<File>): (bytes: seq<Byte>)
    requires AllPackable(files)
  {
    if files == [] then [] else Entry(files[0]) + Entries(files[1..])
  }

  ghost function Archive(files: seq<File>): seq<Byte>
    requires AllPackable(files)
  {
    Entries(files) + Zeros(1024)
  }

  lemma AddAligned(a: nat, b: nat)
    requires a % 512 == 0 && b % 512 == 0
    ensures (a + b) % 512 == 0
  {
  }

  /** So every entry starts on a record boundary. */
  lemma {:induction false} EntriesAligned(files: seq<File>)
    requires AllPackable(files)
    ensures |Entries(files)| % 512 == 0
  {
    hide ToRaw, Entry;
    if files != [] {
      EntriesAligned(files[1..]);
      AddAligned(|Entry(files[0])|, |Entries(files[1..])|);
    }
  }

  function Total(sizes: seq<nat>): nat {
    if sizes == [] then 0 else sizes[0] + Total(sizes[1..])
  }

  // ---------------------------------------------------------------- writing

  function WritePieces(t: Tar, pieces: seq<seq<Byte>>): Tar
    decreases |pieces|
  {
    if pieces == [] then t else WritePieces(WriteData(t, pieces[0]), pieces[1..])
  }

  /** A client that writes each file as a header and then its data in the given pieces. */
  function WriteFiles(t: Tar, names: seq<seq<Byte>>, pieces: seq<seq<seq<Byte>>>): Tar
    requires |names| == |pieces|
    requires forall i :: 0 <= i < |names| ==> IsText(names[i]) && |Flatten(pieces[i])| < U32
    decreases |names|
  {
    if names == [] then t
    else
      var h := WriteHeader(t, FileHeader(names[0], |Flatten(pieces[0])|));
      WriteFiles(WritePieces(h, pieces[0]), names[1..], pieces[1..])
  }

  /** At the end of its bytes, as a writer is. */
  ghost predicate Appending(t: Tar) {
    t.at == |t.bytes| && t.pos == Wrap(|t.bytes|)
  }

  lemma WrapAdd(a: nat, b: int)
    ensures Wrap(Wrap(a) + b) == Wrap(a + b)
  {
  }

  lemma WriteAppends(t: Tar, data: seq<Byte>)
    requires Appending(t)
    ensures var w := Write(t, data);
            Appending(w) && w.bytes == t.bytes + data && w.remaining == t.remaining && w.lastHeader == t.lastHeader
  {
    WrapAdd(|t.bytes|, |data|);
  }

  lemma ModDrop(a: nat, k: nat)
    ensures (a + 512 * k) % 512 == a % 512
  {
  }

  lemma PaddingOfWrapped(n: nat)
    ensures Padding(Wrap(n)) == Padding(n)
  {
    ModDrop(Wrap(n), 8388608 * (n / U32));
  }

  lemma WriteDataAppends(t: Tar, data: seq<Byte>)
    requires Appending(t) && |data| <= t.remaining < U32
    ensures var w := WriteData(t, data);
            && Appending(w) && w.remaining == t.remaining - |data|
            && (w.remaining == 0 ==> w.bytes == t.bytes + data + Zeros(Padding(|t.bytes| + |data|)))
            && (w.remaining > 0 ==> w.bytes == t.bytes + data)
  {
    hide Splice, Write, Padding;
    WriteAppends(t, data);
    var w := Write(t, data).(remaining := t.remaining - |data|);
    assert Wrap(t.remaining - |data|) == w.remaining;
    if w.remaining == 0 {
      PaddingOfWrapped(|w.bytes|);
      WriteAppends(w, Zeros(Padding(w.pos)));
    }
  }

  lemma {:induction false} PiecesAppend(t: Tar, pieces: seq<seq<Byte>>)
    requires Appending(t) && |Flatten(pieces)| == t.remaining < U32
    requires t.remaining == 0 ==> |t.bytes| % 512 == 0
    ensures var w := WritePieces(t, pieces);
            && Appending(w) && w.remaining == 0
            && w.bytes == t.bytes + Flatten(pieces) + Zeros(Padding(|t.bytes| + |Flatten(pieces)|))
    decreases |pieces|
  {
    hide WriteData, Appending, Padding, Zeros;
    var all := |t.bytes| + |Flatten(pieces)|;
    NoPadding(all);
    if pieces == [] {
      assert t.bytes + [] + [] == t.bytes;
    } else {
      var p, rest := pieces[0], pieces[1..];
      WriteDataAppends(t, p);
      var v := WriteData(t, p);
      if v.remaining == 0 {
        NoPadding(|v.bytes|);
        PiecesAppend(v, rest);
        assert Flatten(rest) == [];
        assert v.bytes + [] + [] == v.bytes;
        assert p + [] == p;
      } else {
        PiecesAppend(v, rest);
        Join(t.bytes, p, Flatten(rest), Zeros(Padding(all)));
      }
    }
  }

  lemma NoPadding(n: nat)
    ensures (n + Padding(n)) % 512 == 0
    ensures n % 512 == 0 ==> Padding(n) == 0 && Zeros(Padding(n)) == []
  {
    hide Zeros;
    PaddingAligns(n);
    AlignedNeedsNone(n);
  }

  lemma AlignedNeedsNone(n: nat)
    ensures n % 512 == 0 ==> Padding(n) == 0
  {
  }

  lemma Join(a: seq<Byte>, b: seq<Byte>, c: seq<Byte>, d: seq<Byte>)
    ensures a + b + c + d == a + (b + c) + d
  {
  }

  function FilesOf(names: seq<seq<Byte>>, pieces: seq<seq<seq<Byte>>>): seq<File>
    requires |names| == |pieces|
  {
    seq(|names|, i requires 0 <= i < |names| => File(names[i], Flatten(pieces[i])))
  }

  lemma PaddingFrom(start: nat, n: nat)
    requires start % 512 == 0
    ensures Padding(start + n) == Padding(n)
  {
    ModDrop(n, start / 512);
  }

  lemma WriteHeaderAppends(t: Tar, h: Header)
    requires Appending(t) && Storable(h)
    ensures var w := WriteHeader(t, h);
            Appending(w) && w.bytes == t.bytes + ToRaw(h) && w.remaining == h.size
  {
    hide ToRaw, Write;
    WriteAppends(t, ToRaw(h));
  }

  lemma WriteFileAppends(t: Tar, f: File, pieces: seq<seq<Byte>>)
    requires Appending(t) && |t.bytes| % 512 == 0 && Packable(f) && Flatten(pieces) == f.data
    ensures var w := WritePieces(WriteHeader(t, FileHeader(f.name, |f.data|)), pieces);
            Appending(w) && w.bytes == t.bytes + Entry(f)
  {
    hide ToRaw, WriteHeader, WritePieces, Flatten, Padding, Appending;
    var h := WriteHeader(t, FileHeader(f.name, |f.data|));
    WriteHeaderAppends(t, FileHeader(f.name, |f.data|));
    PiecesAppend(h, pieces);
    PaddingFrom(|h.bytes|, |f.data|);
    Assoc4(t.bytes, ToRaw(FileHeader(f.name, |f.data|)), f.data, Zeros(Padding(|f.data|)));
  }

  lemma Assoc4(a: seq<Byte>, b: seq<Byte>, c: seq<Byte>, d: seq<Byte>)
    ensures a + b + c + d == a + (b + c + d) == a + (b + (c + d)) == (a + b) + (c + d)
  {
  }

  lemma FilesOfRest(names: seq<seq<Byte>>, pieces: seq<seq<seq<Byte>>>)
    requires |names| == |pieces| && names != []
    ensures var files := FilesOf(names, pieces);
            files[0] == File(names[0], Flatten(pieces[0])) && files[1..] == FilesOf(names[1..], pieces[1..])
  {
    hide Flatten;
  }

  /** However the data of each file is cut into writes, the stream grows by exactly the entries. */
  lemma {:induction false} WriteFilesAppends(t: Tar, names: seq<seq<Byte>>, pieces: seq<seq<seq<Byte>>>)
    requires |names| == |pieces|
    requires forall i :: 0 <= i < |names| ==> IsText(names[i]) && |Flatten(pieces[i])| < U32
    requires Appending(t) && |t.bytes| % 512 == 0
    ensures var w := WriteFiles(t, names, pieces);
            Appending(w) && w.bytes == t.bytes + Entries(FilesOf(names, pieces))
    decreases |names|
  {
    hide ToRaw, Entry, WriteHeader, WritePieces, Appending, Flatten;
    if names == [] {
      assert t.bytes + [] == t.bytes;
    } else {
      var f := File(names[0], Flatten(pieces[0]));
      var files := FilesOf(names, pieces);
      WriteFileAppends(t, f, pieces[0]);
      var w := WritePieces(WriteHeader(t, FileHeader(f.name, |f.data|)), pieces[0]);
      WriteFilesAppends(w, names[1..], pieces[1..]);
      FilesOfRest(names, pieces);
      Common.Assoc(t.bytes, Entry(f), Entries(files[1..]));
    }
  }

  // ---------------------------------------------------------------- reading

  /** At the header of `f`, which starts `before` bytes in. */
  ghost predicate AtEntry(t: Tar, before: seq<Byte>, f: File, after: seq<Byte>) {
    && Packable(f)
    && t.bytes == before + Entry(f) + after && |t.bytes| < U32
    && t.at == t.pos == |before| && t.remaining == 0
  }

  /** Inside the data of `f`, with `done` bytes of it read. */
  ghost predicate InEntry(t: Tar, before: seq<Byte>, f: File, after: seq<Byte>, done: nat) {
    && Packable(f) && done < |f.data|
    && t.bytes == before + Entry(f) + after && |t.bytes| < U32
    && t.at == t.pos == |before| + RECORD + done
    && t.remaining == |f.data| - done && t.lastHeader == |before|
  }

  lemma ReadHeaderInPlace(t: Tar, u: Locals)
    requires t.at == t.pos
    ensures t.at + RECORD <= |t.bytes| ==>
              ReadHeader(t, u) == (t.(lastHeader := t.pos),
                                   HeaderAt(t.bytes, t.at, u).0, HeaderAt(t.bytes, t.at, u).1)
    ensures t.at + RECORD > |t.bytes| ==> ReadHeader(t, u).1 == ReadFail
  {
    hide FromRaw;
  }

  lemma FileHeaderFits(f: File)
    requires Packable(f)
    ensures Fits(FileHeader(f.name, |f.data|))
  {
    Pow8Values();
  }

  /** Reading the header of an entry returns its name and size and stays at the header. */
  lemma HeaderReadsBack(t: Tar, before: seq<Byte>, f: File, after: seq<Byte>, u: Locals)
    requires AtEntry(t, before, f, after)
    ensures ReadHeader(t, u) == (t.(lastHeader := |before|), Success, FileHeader(f.name, |f.data|))
  {
    hide ToRaw, FromRaw;
    var h := FileHeader(f.name, |f.data|);
    FileHeaderFits(f);
    HeaderRoundTrip(h, u);
    ReadHeaderInPlace(t, u);
    assert t.bytes == before + (ToRaw(h) + (f.data + Zeros(Padding(|f.data|)) + after));
    assert t.bytes[t.at..t.at + RECORD] == ToRaw(h);
  }

  /** One read inside the data delivers the next bytes; the one that reaches the end also goes
      back to the header. */
  lemma DataReadsOn(t: Tar, before: seq<Byte>, f: File, after: seq<Byte>, done: nat, size: nat, u: Locals)
    requires InEntry(t, before, f, after, done) && done + size <= |f.data|
    ensures var (r, err, data) := ReadData(t, size, u);
            && err == Success && data == f.data[done..done + size]
            && (if done + size == |f.data| then AtEntry(r, before, f, after)
                else InEntry(r, before, f, after, done + size))
  {
    hide ToRaw, Entry, ReadData;
    DataInEntry(before, f, after);
    EntryIsLonger(f);
    ReadOn(t, size, u);
    SliceOfSlice(t.bytes, |before| + RECORD, |f.data|, done, size);
  }

  /** A read in the middle of the data, which fits the stream and the 32 bits. */
  lemma ReadOn(t: Tar, size: nat, u: Locals)
    requires t.remaining != 0 && size <= t.remaining < U32 && t.at + size <= |t.bytes| && t.pos + size < U32
    ensures ReadData(t, size, u)
         == (if size == t.remaining then t.(at := t.lastHeader, pos := t.lastHeader, remaining := 0)
             else t.(at := t.at + size, pos := t.pos + size, remaining := t.remaining - size),
             Success, t.bytes[t.at..t.at + size])
  {
    hide Read, ReadHeader, RoundUp, Wrap;
    ReadInside(t, size);
    NoWrap(t.pos + size);
    NoWrap(t.remaining - size);
  }

  lemma EntryIsLonger(f: File)
    requires Packable(f)
    ensures RECORD + |f.data| <= |Entry(f)|
  {
    hide ToRaw;
  }

  lemma SliceOfSlice(bytes: seq<Byte>, from: nat, n: nat, done: nat, size: nat)
    requires from + n <= |bytes| && done + size <= n
    ensures bytes[from + done..from + done + size] == bytes[from..from + n][done..done + size]
  {
    var part, whole := bytes[from..from + n], bytes[from + done..from + done + size];
    forall i | 0 <= i < size ensures whole[i] == part[done..done + size][i] {
      assert part[done + i] == bytes[from + done + i];
    }
  }

  lemma ReadInside(t: Tar, size: nat)
    requires t.at + size <= |t.bytes|
    ensures Read(t, size) == (t.(at := t.at + size, pos := Wrap(t.pos + size)), Success,
                              t.bytes[t.at..t.at + size])
  {
  }

  lemma DataInEntry(before: seq<Byte>, f: File, after: seq<Byte>)
    requires Packable(f)
    ensures (before + Entry(f) + after)[|before| + RECORD..|before| + RECORD + |f.data|] == f.data
  {
    hide ToRaw;
    Assoc4(before, ToRaw(FileHeader(f.name, |f.data|)), f.data, Zeros(Padding(|f.data|)));
  }

  lemma EnterData(t: Tar, h: Header, size: nat, u: Locals)
    requires t.remaining == 0 && ReadHeader(t, u) == (t.(lastHeader := t.pos), Success, h)
    requires h.size != 0 && t.pos + RECORD < U32
    ensures var s := t.(lastHeader := t.pos, at := t.pos + RECORD, pos := t.pos + RECORD, remaining := h.size);
            ReadData(t, size, u) == ReadData(s, size, u)
  {
    hide Read, ReadHeader, Wrap;
    NoWrap(t.pos + RECORD);
  }

  /** At the first byte of the data of `f`. */
  function Entered(t: Tar, before: seq<Byte>, f: File): Tar {
    t.(lastHeader := |before|, at := |before| + RECORD, pos := |before| + RECORD, remaining := |f.data|)
  }

  /** The first read of an entry continues as one inside its data. */
  lemma FirstReadEnters(t: Tar, before: seq<Byte>, f: File, after: seq<Byte>, size: nat, u: Locals)
    requires AtEntry(t, before, f, after) && f.data != []
    ensures var s := Entered(t, before, f);
            InEntry(s, before, f, after, 0) && ReadData(t, size, u) == ReadData(s, size, u)
  {
    hide ReadHeader, ReadData, Entry;
    HeaderReadsBack(t, before, f, after, u);
    EntryIsLonger(f);
    EnterData(t, FileHeader(f.name, |f.data|), size, u);
  }

  /** Reads of the given sizes, stopping at the first that fails. */
  function ReadPieces(t: Tar, sizes: seq<nat>, u: Locals): (Tar, Error, seq<Byte>)
    decreases |sizes|
  {
    if sizes == [] then (t, Success, [])
    else
      var (r, err, data) := ReadData(t, sizes[0], u);
      if err != Success then (r, err, data)
      else
        var (s, err, more) := ReadPieces(r, sizes[1..], u);
        (s, err, data + more)
  }

  lemma {:induction false} PiecesReadOn(t: Tar, before: seq<Byte>, f: File, after: seq<Byte>, done: nat,
                                        sizes: seq<nat>, u: Locals)
    requires InEntry(t, before, f, after, done)
    requires done + Total(sizes) == |f.data| && sizes[|sizes| - 1] != 0
    ensures var (r, err, data) := ReadPieces(t, sizes, u);
            err == Success && data == f.data[done..] && AtEntry(r, before, f, after)
    decreases |sizes|
  {
    hide ReadData, AtEntry, Entry;
    var size := sizes[0];
    DataReadsOn(t, before, f, after, done, size, u);
    var (r, _, data) := ReadData(t, size, u);
    if |sizes| > 1 {
      LastIsCounted(sizes[1..]);
      PiecesReadOn(r, before, f, after, done + size, sizes[1..], u);
      assert f.data[done..] == f.data[done..done + size] + f.data[done + size..];
    } else {
      assert ReadPieces(r, sizes[1..], u) == (r, Success, []);
      assert data + [] == data;
    }
  }

  lemma {:induction false} LastIsCounted(sizes: seq<nat>)
    requires sizes != [] && sizes[|sizes| - 1] != 0
    ensures Total(sizes) > 0
  {
    if |sizes| > 1 { LastIsCounted(sizes[1..]); }
  }

  /** The reads of one file: they add up to its size and do not go on once it is finished. */
  predicate ReadsAll(sizes: seq<nat>, size: nat) {
    Total(sizes) == size && (size != 0 ==> sizes[|sizes| - 1] != 0)
  }

  /** Reading an entry in any such pieces delivers its data and comes back to its header. */
  lemma {:induction false} EntryReadsBack(t: Tar, before: seq<Byte>, f: File, after: seq<Byte>,
                                          sizes: seq<nat>, u: Locals)
    requires AtEntry(t, before, f, after) && ReadsAll(sizes, |f.data|)
    ensures var (r, err, data) := ReadPieces(t, sizes, u);
            err == Success && data == f.data && AtEntry(r, before, f, after)
    decreases |sizes|
  {
    hide ToRaw, FromRaw, Entry;
    if f.data != [] {
      FirstReadEnters(t, before, f, after, sizes[0], u);
      PiecesReadOn(Entered(t, before, f), before, f, after, 0, sizes, u);
    } else if sizes != [] {
      HeaderReadsBack(t, before, f, after, u);
      var (r, err, data) := ReadData(t, 0, u);
      assert err == Success && data == [] && AtEntry(r, before, f, after);
      EntryReadsBack(r, before, f, after, sizes[1..], u);
    }
  }

  lemma {:induction false} TotalLast(sizes: seq<nat>)
    requires sizes != []
    ensures Total(sizes) == Total(sizes[..|sizes| - 1]) + sizes[|sizes| - 1]
  {
    if |sizes| > 1 {
      TotalLast(sizes[1..]);
      assert sizes[..|sizes| - 1][1..] == sizes[1..][..|sizes| - 2];
    }
  }

  lemma {:induction false} ReadPiecesLast(t: Tar, sizes: seq<nat>, u: Locals)
    requires sizes != [] && ReadPieces(t, sizes[..|sizes| - 1], u).1 == Success
    ensures var (r, _, data) := ReadPieces(t, sizes[..|sizes| - 1], u);
            var (s, err, more) := ReadData(r, sizes[|sizes| - 1], u);
            err == Success ==> ReadPieces(t, sizes, u) == (s, Success, data + more)
    decreases |sizes|
  {
    hide ReadData;
    var init, rest := sizes[..|sizes| - 1], sizes[1..];
    var (r, err, data) := ReadData(t, sizes[0], u);
    if |sizes| == 1 {
      assert rest == [] && data + [] == [] + data == data;
    } else {
      assert init[1..] == rest[..|rest| - 1] && init[0] == sizes[0];
      ReadPiecesLast(r, rest, u);
      var (q, _, some) := ReadPieces(r, init[1..], u);
      var (_, _, more) := ReadData(q, sizes[|sizes| - 1], u);
      assert data + (some + more) == data + some + more;
    }
  }

  /** Reads of nothing after the end of a non-empty file start it again: they leave the stream at the
      first byte of its data. */
  lemma {:induction false} TrailingReadsReenter(t: Tar, before: seq<Byte>, f: File, after: seq<Byte>,
                                                sizes: seq<nat>, u: Locals)
    requires AtEntry(t, before, f, after) && Total(sizes) == |f.data| > 0 && sizes[|sizes| - 1] == 0
    ensures var (r, err, data) := ReadPieces(t, sizes, u);
            err == Success && data == f.data && InEntry(r, before, f, after, 0)
    decreases |sizes|
  {
    hide AtEntry, InEntry, ReadData;
    var init := sizes[..|sizes| - 1];
    TotalLast(sizes);
    if init[|init| - 1] != 0 {
      EntryReadsBack(t, before, f, after, init, u);
      var r := ReadPieces(t, init, u).0;
      FirstReadEnters(r, before, f, after, 0, u);
      ReadNothing(Entered(r, before, f), before, f, after, u);
    } else {
      TrailingReadsReenter(t, before, f, after, init, u);
      ReadNothing(ReadPieces(t, init, u).0, before, f, after, u);
    }
    ReadPiecesLast(t, sizes, u);
    assert f.data + [] == f.data;
  }

  lemma ReadNothing(t: Tar, before: seq<Byte>, f: File, after: seq<Byte>, u: Locals)
    requires InEntry(t, before, f, after, 0)
    ensures var (r, err, data) := ReadData(t, 0, u);
            err == Success && data == [] && InEntry(r, before, f, after, 0)
  {
    hide ReadData;
    DataReadsOn(t, before, f, after, 0, 0, u);
  }

  /** Reads that add up to the size of a file deliver its data; they come back to its header exactly
      when they do not go on once it is finished. */
  lemma EntryReadsBackIff(t: Tar, before: seq<Byte>, f: File, after: seq<Byte>, sizes: seq<nat>, u: Locals)
    requires AtEntry(t, before, f, after) && Total(sizes) == |f.data|
    ensures var (r, err, data) := ReadPieces(t, sizes, u);
            && err == Success && data == f.data
            && (ReadsAll(sizes, |f.data|) ==> AtEntry(r, before, f, after))
            && (r.pos == |before| <==> ReadsAll(sizes, |f.data|))
  {
    hide ReadPieces, Entry;
    if ReadsAll(sizes, |f.data|) {
      EntryReadsBack(t, before, f, after, sizes, u);
    } else {
      TrailingReadsReenter(t, before, f, after, sizes, u);
    }
  }

  lemma NextSkipsEntry(t: Tar, before: seq<Byte>, f: File, after: seq<Byte>, u: Locals)
    requires AtEntry(t, before, f, after) && |after| >= RECORD
    ensures var p := |before| + |Entry(f)|;
            Next(t, u) == (t.(lastHeader := |before|, at := p, pos := p), Success)
  {
    hide ToRaw, ReadHeader, RoundUp, Wrap, Padding, Entry;
    HeaderReadsBack(t, before, f, after, u);
    RoundUpIsLeastMultiple(|f.data|);
    NoWrap(|before| + |Entry(f)|);
  }

  lemma NullRecordEnds(t: Tar, before: seq<Byte>, u: Locals)
    requires t.bytes == before + Zeros(1024) && t.at == t.pos == |before|
    ensures ReadHeader(t, u) == (t.(lastHeader := t.pos), NullRecord, u.header)
    ensures HeaderAt(t.bytes, t.at, u) == (NullRecord, u.header)
  {
    assert Delivered(t, RECORD) == t.bytes[t.at..t.at + RECORD] == Zeros(RECORD);
  }

  /** A client that walks the archive: header, data in the given pieces, next entry; until a
      header cannot be read. */
  function ReadFiles(t: Tar, sizes: seq<seq<nat>>, u: Locals): (seq<File>, Error)
    decreases |sizes|
  {
    var (r, err, h) := ReadHeader(t, u);
    if err != Success then ([], err)
    else if sizes == [] then ([], Success)
    else
      var (s, err, data) := ReadPieces(r, sizes[0], u);
      if err != Success || |data| != h.size then ([], err)
      else
        var (n, err) := Next(s, u);
        if err != Success then ([], err)
        else
          var (more, err) := ReadFiles(n, sizes[1..], u);
          ([File(h.name, data)] + more, err)
  }

  lemma {:induction false} WalkReadsBack(t: Tar, before: seq<Byte>, files: seq<File>, sizes: seq<seq<nat>>, u: Locals)
    requires AllPackable(files) && |sizes| == |files|
    requires forall i :: 0 <= i < |files| ==> ReadsAll(sizes[i], |files[i].data|)
    requires t.bytes == before + Archive(files) && |t.bytes| < U32
    requires t.at == t.pos == |before| && t.remaining == 0
    ensures ReadFiles(t, sizes, u) == (files, NullRecord)
    decreases |files|
  {
    hide Entry, ReadHeader, ReadPieces, Next;
    if files == [] {
      assert Archive(files) == Zeros(1024);
      NullRecordEnds(t, before, u);
    } else {
      var f, rest := files[0], files[1..];
      assert before + Archive(files) == before + Entry(f) + Archive(rest);
      HeaderReadsBack(t, before, f, Archive(rest), u);
      var r := t.(lastHeader := |before|);
      EntryReadsBack(r, before, f, Archive(rest), sizes[0], u);
      var (s, _, data) := ReadPieces(r, sizes[0], u);
      NextSkipsEntry(s, before, f, Archive(rest), u);
      WalkReadsBack(Next(s, u).0, before + Entry(f), rest, sizes[1..], u);
      assert [f] + rest == files;
    }
  }

  const EMPTY := Tar([], 0, 0, 0, 0)

  /** The archive round trip: whatever the files, however their data is cut into writes and
      reads, walking the finalized archive yields the same names and bytes in order and then the
      null record. */
  lemma ArchiveRoundTrip(names: seq<seq<Byte>>, pieces: seq<seq<seq<Byte>>>, sizes: seq<seq<nat>>, u: Locals)
    requires |names| == |pieces| == |sizes|
    requires forall i :: 0 <= i < |names| ==>
               IsText(names[i]) && |Flatten(pieces[i])| < U32 && ReadsAll(sizes[i], |Flatten(pieces[i])|)
    requires |Archive(FilesOf(names, pieces))| < U32
    ensures var written := Finalize(WriteFiles(EMPTY, names, pieces));
            && written.bytes == Archive(FilesOf(names, pieces))
            && ReadFiles(Rewind(written), sizes, u) == (FilesOf(names, pieces), NullRecord)
  {
    WriteFilesAppends(EMPTY, names, pieces);
    var w := WriteFiles(EMPTY, names, pieces);
    var files := FilesOf(names, pieces);
    assert w.bytes == Entries(files);
    WriteAppends(w, Zeros(1024));
    assert [] + Archive(files) == Archive(files);
    WalkReadsBack(Rewind(Finalize(w)), [], files, sizes, u);
  }

  // ---------------------------------------------------------------- finding

  /** The header at `p`, as mtar_read_header finds it. */
  function HeaderAt(bytes: seq<Byte>, p: nat, u: Locals): (Error, Header) {
    if p + RECORD > |bytes| then (ReadFail, u.header) else FromRaw(bytes[p..p + RECORD], u)
  }

  /** Where mtar_next goes from the header at `p`, in 32 bits. */
  function After(bytes: seq<Byte>, p: nat, u: Locals): nat {
    Wrap(p + RoundUp(HeaderAt(bytes, p, u).1.size, 512) + RECORD)
  }

  /** The loop of mtar_find ends at `p`: no header can be read there, or it has the name. */
  predicate Stops(bytes: seq<Byte>, p: nat, name: seq<Byte>, u: Locals) {
    HeaderAt(bytes, p, u).0 != Success || HeaderAt(bytes, p, u).1.name == name
  }

  /** The position after `k` turns of the loop. */
  function Turn(bytes: seq<Byte>, k: nat, u: Locals): nat {
    if k == 0 then 0 else After(bytes, Turn(bytes, k - 1, u), u)
  }

  /** Turn `k` stops. */
  predicate StopsAt(bytes: seq<Byte>, k: nat, name: seq<Byte>, u: Locals) { Stops(bytes, Turn(bytes, k, u), name, u) }

  /** Turn `k` is the first to stop. */
  ghost predicate StopsFirstAt(bytes: seq<Byte>, k: nat, name: seq<Byte>, u: Locals) {
    && StopsAt(bytes, k, name, u)
    && forall j: nat :: j < k ==> !StopsAt(bytes, j, name, u)
  }

  /** The record at turn `k` takes mtar_read_header out of its arrays. */
  predicate OverrunsAt(bytes: seq<Byte>, k: nat, u: Locals) { HeaderAt(bytes, Turn(bytes, k, u), u).0 == Overrun }

  /** The search ends, one way or the other: some turn of the loop is the last. */
  ghost predicate Ends(bytes: seq<Byte>, name: seq<Byte>, u: Locals) {
    exists k: nat :: StopsFirstAt(bytes, k, name, u)
  }

  /** mtar_find returns, never having left its arrays: the turns before the last read their record. */
  ghost predicate Returns(bytes: seq<Byte>, name: seq<Byte>, u: Locals) {
    exists k: nat :: StopsFirstAt(bytes, k, name, u) && !OverrunsAt(bytes, k, u)
  }

  /** It comes to a record that takes it out of its arrays. */
  ghost predicate Overruns(bytes: seq<Byte>, name: seq<Byte>, u: Locals) {
    exists k: nat :: StopsFirstAt(bytes, k, name, u) && OverrunsAt(bytes, k, u)
  }

  lemma {:induction false} FirstStop(bytes: seq<Byte>, k: nat, name: seq<Byte>, u: Locals) returns (m: nat)
    requires StopsAt(bytes, k, name, u)
    ensures m <= k && StopsFirstAt(bytes, m, name, u)
    decreases k
  {
    hide StopsAt;
    if j: nat :| j < k && StopsAt(bytes, j, name, u) {
      m := FirstStop(bytes, j, name, u);
    } else {
      m := k;
    }
  }

  /** What mtar_find returns when it stops at `p`. */
  function FindError(bytes: seq<Byte>, p: nat, u: Locals): Error {
    var err := HeaderAt(bytes, p, u).0;
    if err == NullRecord then NotFound else err
  }

  /** Two values below `n` among more than `n` are equal. */
  lemma {:induction false} Pigeonhole(s: seq<nat>, n: nat) returns (i: nat, j: nat)
    requires |s| > n && forall k :: 0 <= k < |s| ==> s[k] < n
    ensures i < j < |s| && s[i] == s[j]
    decreases n
  {
    var last := |s| - 1;
    if m :| 0 <= m < last && s[m] == s[last] {
      return m, last;
    }
    // the last value takes the place of n - 1, which leaves only values below n - 1
    var t := seq(last, k requires 0 <= k < last => if s[k] == n - 1 then s[last] else s[k]);
    if s[last] == n - 1 {
      assert t == s[..last];
      i, j := Pigeonhole(s[..last], n - 1);
    } else {
      i, j := Pigeonhole(t, n - 1);
    }
  }

  lemma TurnIsAligned(bytes: seq<Byte>, k: nat, u: Locals)
    ensures Turn(bytes, k, u) % 512 == 0
  {
    hide HeaderAt, RoundUp;
    if k > 0 {
      TurnIsAligned(bytes, k - 1, u);
      var size := HeaderAt(bytes, Turn(bytes, k - 1, u), u).1.size;
      SumIsAligned(Turn(bytes, k - 1, u), size);
    }
  }

  lemma SumIsAligned(p: nat, size: nat)
    requires p % 512 == 0
    ensures Wrap(p + RoundUp(size, 512) + RECORD) % 512 == 0
  {
    hide Padding, RoundUp, Wrap;
    PaddingAligns(size);
    RoundUpIs(size);
    WrapIsAligned(size + Padding(size));
    AddAligned(p, RoundUp(size, 512));
    AddAligned(p + RoundUp(size, 512), RECORD);
    WrapIsAligned(p + RoundUp(size, 512) + RECORD);
  }

  lemma WrapIsAligned(n: nat)
    requires n % 512 == 0
    ensures Wrap(n) % 512 == 0
  {
    ModDrop(Wrap(n), 8388608 * (n / U32));
  }

  /** Once a position comes again the loop goes round. */
  lemma {:induction false} GoesRound(bytes: seq<Byte>, u: Locals, i: nat, j: nat, k: nat)
    requires i < j <= k && Turn(bytes, i, u) == Turn(bytes, j, u)
    ensures Turn(bytes, k, u) == Turn(bytes, k - (j - i), u)
    decreases k
  {
    hide After;
    if k > j { GoesRound(bytes, u, i, j, k - 1); }
  }

  lemma {:induction false} NeverStops(bytes: seq<Byte>, name: seq<Byte>, u: Locals, i: nat, j: nat, k: nat)
    requires i < j && Turn(bytes, i, u) == Turn(bytes, j, u)
    requires forall m: nat :: m < j ==> !StopsAt(bytes, m, name, u)
    ensures !StopsAt(bytes, k, name, u)
    decreases k
  {
    hide Stops, Turn;
    if k >= j {
      GoesRound(bytes, u, i, j, k);
      NeverStops(bytes, name, u, i, j, k - (j - i));
    }
  }

  /** Each turn that does not stop stands at a record of the stream, so a search of more turns than
      the stream has records has been where it is before. */
  lemma GoesOnForEver(bytes: seq<Byte>, name: seq<Byte>, u: Locals, k: nat)
    requires forall m: nat :: m <= |bytes| / 512 ==> !StopsAt(bytes, m, name, u)
    ensures !StopsAt(bytes, k, name, u)
  {
    hide Stops, Turn;
    var n := |bytes| / 512;
    var records := seq(n + 1, m requires 0 <= m <= n => Turn(bytes, m, u) / 512);
    forall m: nat | m <= n ensures records[m] < n {
      assert !StopsAt(bytes, m, name, u);
      InStream(bytes, Turn(bytes, m, u), name, u);
    }
    var i, j := Pigeonhole(records, n);
    TurnIsAligned(bytes, i, u);
    TurnIsAligned(bytes, j, u);
    assert records[i] == Turn(bytes, i, u) / 512 && records[j] == Turn(bytes, j, u) / 512;
    NeverStops(bytes, name, u, i, j, k);
  }

  /** The first turn to stop, if any, is one of the first |bytes| / 512 + 1. */
  lemma StopsSoon(bytes: seq<Byte>, k: nat, name: seq<Byte>, u: Locals)
    requires StopsFirstAt(bytes, k, name, u)
    ensures k <= |bytes| / 512
  {
    hide StopsAt;
    if k > |bytes| / 512 { GoesOnForEver(bytes, name, u, k); }
  }

  /** What becomes of mtar_find is decided within |bytes| / 512 + 1 turns: it returns exactly when one
      of them is the first to stop and no record up to there leaves the arrays, it overruns exactly when
      the first to stop is such a record, and otherwise it goes on for ever. */
  lemma FindReturnsIff(bytes: seq<Byte>, name: seq<Byte>, u: Locals)
    ensures Returns(bytes, name, u) <==>
              exists k: nat :: && k <= |bytes| / 512 && StopsAt(bytes, k, name, u)
                               && forall j: nat :: j <= k ==> !OverrunsAt(bytes, j, u)
    ensures Overruns(bytes, name, u) <==>
              exists k: nat :: && k <= |bytes| / 512 && OverrunsAt(bytes, k, u)
                               && forall j: nat :: j < k ==> !StopsAt(bytes, j, name, u)
    ensures !(Returns(bytes, name, u) && Overruns(bytes, name, u))
    ensures (forall k: nat :: !StopsAt(bytes, k, name, u))
       <==> forall k: nat :: k <= |bytes| / 512 ==> !StopsAt(bytes, k, name, u)
  {
    hide StopsAt, OverrunsAt;
    forall k: nat | OverrunsAt(bytes, k, u) ensures StopsAt(bytes, k, name, u) { OverrunStops(bytes, k, name, u); }
    if k: nat :| StopsFirstAt(bytes, k, name, u) { StopsSoon(bytes, k, name, u); }
    if k: nat :| StopsAt(bytes, k, name, u) { var m := FirstStop(bytes, k, name, u); StopsSoon(bytes, m, name, u); }
  }

  lemma OverrunStops(bytes: seq<Byte>, k: nat, name: seq<Byte>, u: Locals)
    requires OverrunsAt(bytes, k, u)
    ensures StopsAt(bytes, k, name, u)
  {
    hide HeaderAt, Turn;
  }

  lemma InStream(bytes: seq<Byte>, p: nat, name: seq<Byte>, u: Locals)
    requires !Stops(bytes, p, name, u)
    ensures p + RECORD <= |bytes| && p / 512 < |bytes| / 512
  {
    hide FromRaw;
  }

  /** It need not return: two good headers that point at each other hold any search for a third name
      for ever, though neither stays where it is. */
  lemma LoopingStream(a: seq<Byte>, b: seq<Byte>, name: seq<Byte>, u: Locals)
    requires IsText(a) && IsText(b) && name != a && name != b
    ensures !Ends(ToRaw(FileHeader(a, 0)) + ToRaw(FileHeader(b, U32 - 1024)), name, u)
  {
    hide ToRaw, FromRaw, Turn, RoundUp, After;
    var one, two := ToRaw(FileHeader(a, 0)), ToRaw(FileHeader(b, U32 - 1024));
    var bytes := one + two;
    assert bytes[0..RECORD] == one && bytes[RECORD..RECORD + RECORD] == two;
    FileHeaderReads(a, 0, u);
    FileHeaderReads(b, U32 - 1024, u);
    BackAndForth(bytes, u);
    forall k: nat ensures !StopsAt(bytes, k, name, u) {
      TwoPlaces(bytes, u, k);
    }
  }

  lemma FileHeaderReads(name: seq<Byte>, size: nat, u: Locals)
    requires IsText(name) && size < U32
    ensures FromRaw(ToRaw(FileHeader(name, size)), u) == (Success, FileHeader(name, size))
  {
    hide ToRaw, FromRaw;
    Pow8Values();
    HeaderRoundTrip(FileHeader(name, size), u);
  }

  lemma BackAndForth(bytes: seq<Byte>, u: Locals)
    requires HeaderAt(bytes, 0, u).1.size == 0 && HeaderAt(bytes, 512, u).1.size == U32 - 1024
    ensures After(bytes, 0, u) == 512 && After(bytes, 512, u) == 0
  {
    hide HeaderAt;
    RoundUpIsLeastMultiple(0);
    RoundUpIsLeastMultiple(U32 - 1024);
  }

  lemma {:induction false} TwoPlaces(bytes: seq<Byte>, u: Locals, k: nat)
    requires After(bytes, 0, u) == 512 && After(bytes, 512, u) == 0
    ensures Turn(bytes, k, u) == 0 || Turn(bytes, k, u) == 512
  {
    hide After;
    if k > 0 { TwoPlaces(bytes, u, k - 1); }
  }

  // ---------------------------------------------------------------- finding without wrap

  /** No record up to the one that stops the search leaves the arrays, and none before it takes the
      32-bit position round: a check a caller can make by walking the stream once. */
  predicate Forward(bytes: seq<Byte>, p: nat, name: seq<Byte>, u: Locals)
    decreases |bytes| - p
  {
    hide FromRaw, RoundUp;
    && HeaderAt(bytes, p, u).0 != Overrun
    && (!Stops(bytes, p, name, u) && p + RECORD <= |bytes| ==>
          var q := p + RoundUp(HeaderAt(bytes, p, u).1.size, 512) + RECORD;
          q < U32 && Forward(bytes, q, name, u))
  }

  /** Then the search returns: from turn `k` it stops at some turn `m`. */
  lemma {:induction false} ForwardStops(bytes: seq<Byte>, name: seq<Byte>, u: Locals, k: nat) returns (m: nat)
    requires Forward(bytes, Turn(bytes, k, u), name, u)
    requires forall j: nat :: j < k ==> !StopsAt(bytes, j, name, u)
    ensures StopsFirstAt(bytes, m, name, u) && !OverrunsAt(bytes, m, u)
    decreases |bytes| - Turn(bytes, k, u)
  {
    hide FromRaw, RoundUp, HeaderAt, Stops, Turn;
    var p := Turn(bytes, k, u);
    if Stops(bytes, p, name, u) {
      m := k;
    } else {
      InStream(bytes, p, name, u);
      TurnNext(bytes, k, u);
      NoWrap(p + RoundUp(HeaderAt(bytes, p, u).1.size, 512) + RECORD);
      m := ForwardStops(bytes, name, u, k + 1);
    }
  }

  lemma TurnNext(bytes: seq<Byte>, k: nat, u: Locals)
    ensures Turn(bytes, k + 1, u) == After(bytes, Turn(bytes, k, u), u)
  {
    hide After;
  }

  /** In turn 0 already, which makes it a check before the call. */
  lemma ForwardReturns(bytes: seq<Byte>, name: seq<Byte>, u: Locals)
    requires Forward(bytes, 0, name, u)
    ensures Returns(bytes, name, u)
  {
    hide Forward, Stops;
    var m := ForwardStops(bytes, name, u, 0);
  }

  /** The bytes before the first file called `name`. */
  ghost function BytesBefore(files: seq<File>, name: seq<Byte>): seq<Byte>
    requires AllPackable(files)
  {
    if files == [] || files[0].name == name then [] else Entry(files[0]) + BytesBefore(files[1..], name)
  }

  /** One step of the walk over an archive. */
  lemma EntryStep(before: seq<Byte>, f: File, after: seq<Byte>, u: Locals)
    requires Packable(f) && |before + Entry(f) + after| < U32
    ensures var bytes, p := before + Entry(f) + after, |before|;
            && p + RECORD <= |bytes|
            && HeaderAt(bytes, p, u) == (Success, FileHeader(f.name, |f.data|))
            && p + RoundUp(|f.data|, 512) + RECORD == |before + Entry(f)| < U32
  {
    hide FromRaw, ToRaw;
    var bytes, p := before + Entry(f) + after, |before|;
    HeaderReadsBack(Tar(bytes, p, p, 0, 0), before, f, after, u);
    RoundUpIsLeastMultiple(|f.data|);
  }

  /** On an archive the search goes forward to the first file of that name, or to the null records. */
  lemma {:induction false} ArchiveIsForward(before: seq<Byte>, files: seq<File>, name: seq<Byte>, u: Locals)
    requires AllPackable(files) && |before + Archive(files)| < U32
    ensures Forward(before + Archive(files), |before|, name, u)
    decreases |files|
  {
    hide FromRaw, Entry, HeaderAt, RoundUp;
    var bytes := before + Archive(files);
    if files == [] {
      assert bytes == before + Zeros(1024);
      NullRecordEnds(Tar(bytes, |before|, |before|, 0, 0), before, u);
    } else {
      var f, rest := files[0], files[1..];
      assert bytes == before + Entry(f) + Archive(rest);
      EntryStep(before, f, Archive(rest), u);
      ArchiveIsForward(before + Entry(f), rest, name, u);
    }
  }

  /** The search that has come to `before` stops behind the files of other names, with NotFound exactly
      when there are no others. */
  lemma {:induction false} ArchiveStops(
    before: seq<Byte>, files: seq<File>, name: seq<Byte>, u: Locals, k: nat, m: nat)
    requires AllPackable(files) && |before + Archive(files)| < U32
    requires var bytes := before + Archive(files);
             k <= m && Turn(bytes, k, u) == |before| && StopsFirstAt(bytes, m, name, u)
    ensures var bytes := before + Archive(files);
            && Turn(bytes, m, u) == |before| + |BytesBefore(files, name)|
            && FindError(bytes, Turn(bytes, m, u), u)
            == (if exists f :: f in files && f.name == name then Success else NotFound)
    decreases |files|
  {
    hide FromRaw, Entry, HeaderAt, RoundUp, Turn;
    var bytes := before + Archive(files);
    if files == [] {
      assert bytes == before + Zeros(1024);
      NullRecordEnds(Tar(bytes, |before|, |before|, 0, 0), before, u);
      assert StopsAt(bytes, k, name, u);
    } else {
      var f, rest := files[0], files[1..];
      assert bytes == before + Entry(f) + Archive(rest);
      EntryStep(before, f, Archive(rest), u);
      if f.name == name {
        assert StopsAt(bytes, k, name, u);
        assert f in files;
      } else {
        assert !StopsAt(bytes, k, name, u);
        TurnNext(bytes, k, u);
        NoWrap(|before + Entry(f)|);
        ArchiveStops(before + Entry(f), rest, name, u, k + 1, m);
        assert (exists g :: g in files && g.name == name) <==> (exists g :: g in rest && g.name == name) by {
          assert files == [f] + rest;
        }
      }
    }
  }

  /** On an archive mtar_find returns, at the first file of that name, or with NotFound exactly when
      there is none. */
  lemma FindOnArchive(files: seq<File>, name: seq<Byte>, u: Locals) returns (m: nat)
    requires AllPackable(files) && |Archive(files)| < U32
    ensures Returns(Archive(files), name, u) && StopsFirstAt(Archive(files), m, name, u)
    ensures Turn(Archive(files), m, u) == |BytesBefore(files, name)|
    ensures FindError(Archive(files), |BytesBefore(files, name)|, u)
         == (if exists f :: f in files && f.name == name then Success else NotFound)
  {
    hide Forward, Archive, BytesBefore, Stops;
    var bytes := Archive(files);
    assert [] + bytes == bytes;
    ArchiveIsForward([], files, name, u);
    m := ForwardStops(bytes, name, u, 0);
    ArchiveStops([], files, name, u, 0, m);
  }

  /** The file a successful search stops at, as the split of the archive around it. */
  lemma {:induction false} FirstNamed(files: seq<File>, name: seq<Byte>) returns (i: nat)
    requires AllPackable(files) && exists f :: f in files && f.name == name
    ensures i < |files| && files[i].name == name && forall j :: 0 <= j < i ==> files[j].name != name
    ensures Archive(files) == BytesBefore(files, name) + Entry(files[i]) + Archive(files[i + 1..])
  {
    hide Entry, Entries, Archive;
    var rest := files[1..];
    ArchiveHead(files);
    if files[0].name == name {
      i := 0;
      NoneBefore(Entry(files[0]));
    } else {
      NamedInRest(files, name);
      var k := FirstNamed(rest, name);
      i := k + 1;
      assert rest[k + 1..] == files[i + 1..];
      Assoc4(Entry(files[0]), BytesBefore(rest, name), Entry(files[i]), Archive(files[i + 1..]));
    }
  }

  lemma NoneBefore(e: seq<Byte>)
    ensures [] + e == e
  {
  }

  lemma ArchiveHead(files: seq<File>)
    requires AllPackable(files) && files != []
    ensures Archive(files) == Entry(files[0]) + Archive(files[1..])
  {
    hide Entry;
    Common.Assoc(Entry(files[0]), Entries(files[1..]), Zeros(1024));
  }

  lemma NamedInRest(files: seq<File>, name: seq<Byte>)
    requires files != [] && files[0].name != name && exists f :: f in files && f.name == name
    ensures exists f :: f in files[1..] && f.name == name
  {
    var f :| f in files && f.name == name;
    assert files == [files[0]] + files[1..];
    assert f in files[1..];
  }

  /** A search that succeeds leaves the archive at the first file of that name, so that reading
      its data in any pieces delivers exactly that file. */
  lemma FoundFileReadsBack(t: Tar, files: seq<File>, name: seq<Byte>, sizes: seq<nat>, u: Locals) returns (i: nat)
    requires AllPackable(files) && t.bytes == Archive(files) && |t.bytes| < U32
    requires exists f :: f in files && f.name == name
    requires t.at == t.pos == |BytesBefore(files, name)| && t.remaining == 0
    ensures i < |files| && files[i].name == name && forall j :: 0 <= j < i ==> files[j].name != name
    ensures ReadsAll(sizes, |files[i].data|) ==>
              ReadPieces(t, sizes, u).1 == Success && ReadPieces(t, sizes, u).2 == files[i].data
  {
    i := FirstNamed(files, name);
    if ReadsAll(sizes, |files[i].data|) {
      EntryReadsBack(t, BytesBefore(files, name), files[i], Archive(files[i + 1..]), sizes, u);
    }
  }

  /** The shortest loop: mtar_next stays where it is exactly when the size rounds up to
      2^32 - 512. */
  lemma NextStaysIff(bytes: seq<Byte>, p: nat, u: Locals)
    requires p < U32 && HeaderAt(bytes, p, u).1.size < U32
    ensures After(bytes, p, u) == p <==> U32 - 1024 < HeaderAt(bytes, p, u).1.size <= U32 - 512
  {
    hide HeaderAt;
    var size := HeaderAt(bytes, p, u).1.size;
    RoundUpIsLeastMultiple(size);
    StaysIff(p, RoundUp(size, 512));
  }

  lemma StaysIff(p: nat, n: nat)
    requires p < U32 && n <= U32 - 512 && n % 512 == 0
    ensures Wrap(p + n + RECORD) == p <==> n == U32 - 512
  {
  }

  // ---------------------------------------------------------------- what the search carries along

  /** The locals of the header read in turn `k`: mtar_find scans every record into one variable, so
      a field without digits keeps what an earlier record left in it. */
  function Carried(bytes: seq<Byte>, k: nat, u: Locals): Locals {
    if k == 0 then u
    else Locals(HeaderAt(bytes, Turn(bytes, k - 1, u), Carried(bytes, k - 1, u)).1, u.checksum)
  }

  /** What is carried decides neither whether a header is read nor its name. */
  lemma CarriedAgrees(bytes: seq<Byte>, p: nat, k: nat, u: Locals)
    ensures var (err, h), (e, g) := HeaderAt(bytes, p, Carried(bytes, k, u)), HeaderAt(bytes, p, u);
            err == e && (err == Success ==> h.name == g.name)
  {
    hide Scan, TextAt, HeaderSum;
    assert Carried(bytes, k, u).checksum == u.checksum;
  }

  /** What is carried: nothing at first, and after a readable record what its fields give, or where one
      has no digits what was carried before. */
  lemma CarriedFields(bytes: seq<Byte>, k: nat, u: Locals)
    requires HeaderAt(bytes, Turn(bytes, k, u), u).0 == Success
    ensures Carried(bytes, 0, u) == u && Carried(bytes, k + 1, u).checksum == u.checksum
    ensures var p := Turn(bytes, k, u);
            p + RECORD <= |bytes| &&
            var raw, g, h := bytes[p..p + RECORD], Carried(bytes, k, u).header, Carried(bytes, k + 1, u).header;
            && Gives(Scan(TextAt(raw, 100)), g.mode, h.mode) && Gives(Scan(TextAt(raw, 108)), g.owner, h.owner)
            && Gives(Scan(TextAt(raw, 124)), g.size, h.size) && Gives(Scan(TextAt(raw, 136)), g.mtime, h.mtime)
            && h.name == TextAt(raw, 0) && h.linkname == TextAt(raw, 157)
  {
    hide FromRaw, Turn, Gives, Scan, TextAt;
    var p := Turn(bytes, k, u);
    CarriedAgrees(bytes, p, k, u);
    AcceptedIff(bytes[p..p + RECORD], Carried(bytes, k, u));
  }

  // ---------------------------------------------------------------- the class

  class Mtar {
    var stream: seq<Byte>
    var at: nat
    var pos: nat
    var remainingData: nat
    var lastHeader: nat

    ghost function State(): Tar
      reads this
    {
      Tar(stream, at, pos, remainingData, lastHeader)
    }

    constructor (bytes: seq<Byte>)
      ensures State() == Tar(bytes, 0, 0, 0, 0)
    {
      stream, at, pos, remainingData, lastHeader := bytes, 0, 0, 0, 0;
    }

    /** `twrite` over the stream. */
    method TWrite(data: seq<Byte>)
      modifies this`stream, this`at, this`pos
      ensures State() == Write(old(State()), data)
    {
      if data != [] {
        var head := if |stream| < at then stream + Zeros(at - |stream|) else stream[..at];
        var tail := if at + |data| < |stream| then stream[at + |data|..] else [];
        stream := head + data + tail;
      }
      at := at + |data|;
      pos := Wrap(pos + |data|);
    }

    /** `tread` over the stream. */
    method TRead(size: nat) returns (err: Error, data: seq<Byte>)
      modifies this`at, this`pos
      ensures (State(), err, data) == Read(old(State()), size)
    {
      if at >= |stream| {
        data := [];
      } else if at + size <= |stream| {
        data := stream[at..at + size];
      } else {
        data := stream[at..];
      }
      at := at + |data|;
      pos := Wrap(pos + size);
      err := if |data| == size then Success else ReadFail;
    }

    /** `mtar_seek` */
    method SeekTo(p: nat)
      modifies this`at, this`pos
      ensures State() == Seek(old(State()), p)
    {
      at := p;
      pos := p;
    }

    /** `mtar_rewind` */
    method RewindTar()
      modifies this
      ensures State() == Rewind(old(State()))
      ensures stream == old(stream) && at == pos == remainingData == lastHeader == 0
    {
      remainingData := 0;
      lastHeader := 0;
      SeekTo(0);
    }

    /** `write_null_bytes` */
    method WriteNullBytes(n: nat)
      requires pos < U32
      modifies this`stream, this`at, this`pos
      ensures State() == Write(old(State()), Zeros(n))
    {
      for i := 0 to n
        invariant State() == Write(old(State()), Zeros(i))
      {
        WriteTwice(old(State()), Zeros(i), [0]);
        assert Zeros(i + 1) == Zeros(i) + [0];
        TWrite([0]);
      }
    }

    /** `mtar_write_header` */
    method WriteHeaderRecord(h: Header)
      requires Storable(h)
      modifies this
      ensures State() == WriteHeader(old(State()), h)
    {
      var rh := new Byte[RECORD];
      HeaderToRaw(rh, h);
      remainingData := h.size;
      TWrite(rh[..]);
    }

    /** `mtar_write_file_header` */
    method WriteFileHeader(name: seq<Byte>, size: nat)
      requires IsText(name) && size < U32
      modifies this
      ensures State() == WriteHeader(old(State()), FileHeader(name, size))
    {
      var h := Header(0, 0, 0, 0, 0, [], []);
      h := h.(name := name);
      h := h.(size := size);
      h := h.(kind := REGULAR);
      h := h.(mode := 436);
      WriteHeaderRecord(h);
    }

    /** `mtar_write_dir_header` */
    method WriteDirHeader(name: seq<Byte>)
      requires IsText(name)
      modifies this
      ensures State() == WriteHeader(old(State()), DirHeader(name))
    {
      var h := Header(0, 0, 0, 0, 0, [], []);
      h := h.(name := name);
      h := h.(kind := DIRECTORY);
      h := h.(mode := 509);
      WriteHeaderRecord(h);
    }

    /** `mtar_write_data` */
    method WriteDataPiece(data: seq<Byte>)
      modifies this
      ensures State() == WriteData(old(State()), data)
    {
      hide Splice, Padding, RoundUp, Wrap, Zeros;
      TWrite(data);
      remainingData := Wrap(remainingData - |data|);
      if remainingData == 0 {
        PaddingWraps(pos);
        WriteNullBytes(Wrap(RoundUp(pos, 512) - pos));
      }
    }

    /** `mtar_finalize` */
    method FinalizeTar()
      requires pos < U32
      modifies this
      ensures State() == Finalize(old(State()))
    {
      WriteNullBytes(RECORD * 2);
    }

    /** `mtar_read_header` */
    method ReadHeaderRecord(u: Locals) returns (err: Error, h: Header)
      modifies this`at, this`pos, this`lastHeader
      ensures (State(), err, h) == ReadHeader(old(State()), u)
    {
      h := u.header;
      lastHeader := pos;
      var raw: seq<Byte>;
      err, raw := TRead(RECORD);
      if err != Success {
        return;
      }
      SeekTo(lastHeader);
      var rh := new Byte[RECORD](i requires 0 <= i < |raw| => raw[i]);
      assert rh[..] == raw;
      err, h := RawToHeader(rh, u);
    }

    /** `mtar_next` */
    method NextRecord(u: Locals) returns (err: Error)
      modifies this`at, this`pos, this`lastHeader
      ensures (State(), err) == Next(old(State()), u)
    {
      hide FromRaw, ReadHeader, RoundUp;
      var h: Header;
      err, h := ReadHeaderRecord(u);
      if err != Success {
        return;
      }
      var n := RoundUp(h.size, 512) + RECORD;
      SeekTo(Wrap(pos + n));
    }

    /** `mtar_read_data` */
    method ReadDataPiece(size: nat, u: Locals) returns (err: Error, data: seq<Byte>)
      modifies this
      ensures (State(), err, data) == ReadData(old(State()), size, u)
    {
      hide FromRaw, ReadHeader, Read, Wrap;
      data := [];
      if remainingData == 0 {
        var h: Header;
        err, h := ReadHeaderRecord(u);
        if err != Success {
          return;
        }
        SeekTo(Wrap(pos + RECORD));
        remainingData := h.size;
      }
      err, data := TRead(size);
      if err != Success {
        return;
      }
      remainingData := Wrap(remainingData - size);
      if remainingData == 0 {
        SeekTo(lastHeader);
      }
    }

    /** `mtar_find`, on any stream on which its loop ends; `h` is None where the source leaves the
        caller's header alone. */
    method Find(name: seq<Byte>, u: Locals) returns (err: Error, h: Option<Header>, ghost turns: nat)
      requires Ends(stream, name, u)
      modifies this
      ensures stream == old(stream) && StopsFirstAt(stream, turns, name, u)
      ensures err == Overrun <==> OverrunsAt(stream, turns, u)
      ensures err == Overrun <==> !Returns(stream, name, u)
      ensures err != Overrun ==>
              var p := Turn(stream, turns, u);
              && err == FindError(stream, p, u)
              && State() == ReadHeader(Tar(stream, p, p, 0, p), Carried(stream, turns, u)).0
              && h == if err == Success then Some(HeaderAt(stream, p, Carried(stream, turns, u)).1) else None
    {
      hide FromRaw, Next, ReadHeader, After, HeaderAt, Stops;
      ghost var end: nat :| StopsFirstAt(stream, end, name, u);
      RewindTar();
      h, turns := None, 0;
      ghost var p := 0;
      var header := u.header;
      err, header := ReadHeaderRecord(Locals(header, u.checksum));
      HeaderRead(Tar(stream, p, p, 0, 0), turns, name, u);
      while err == Success
        invariant stream == old(stream) && turns <= end && p == Turn(stream, turns, u)
        invariant (State(), err, header) == ReadHeader(Tar(stream, p, p, 0, p), Carried(stream, turns, u))
        invariant (err, header) == HeaderAt(stream, p, Carried(stream, turns, u))
        invariant err == Success ==> State() == Tar(stream, p, p, 0, p)
        invariant err != Success ==> Stops(stream, p, name, u)
        invariant err == HeaderAt(stream, p, u).0
        invariant forall j: nat :: j < turns ==> !StopsAt(stream, j, name, u)
        decreases end - turns
      {
        StopsIff(stream, p, turns, name, u);
        if header.name == name {
          h := Some(header);
          return;
        }
        NextTurns(State(), turns, u);
        var _ := NextRecord(u);
        turns := turns + 1;
        p := Turn(stream, turns, u);
        ghost var before := State();
        err, header := ReadHeaderRecord(Locals(header, u.checksum));
        HeaderRead(before, turns, name, u);
      }
      if err == NullRecord {
        err := NotFound;
      }
    }
  }

  /** Reading the header of turn `k`. */
  lemma HeaderRead(t: Tar, k: nat, name: seq<Byte>, u: Locals)
    requires t.at == t.pos == Turn(t.bytes, k, u) && t.remaining == 0
    ensures var p, v := t.pos, Carried(t.bytes, k, u);
            && ReadHeader(t, v) == ReadHeader(Tar(t.bytes, p, p, 0, p), v)
            && (ReadHeader(t, v).1, ReadHeader(t, v).2) == HeaderAt(t.bytes, p, v)
            && ReadHeader(t, v).1 == HeaderAt(t.bytes, p, u).0
            && (ReadHeader(t, v).1 == Success ==> ReadHeader(t, v).0 == Tar(t.bytes, p, p, 0, p))
            && (ReadHeader(t, v).1 != Success ==> Stops(t.bytes, p, name, u))
  {
    hide FromRaw, Turn, Carried;
    var v := Carried(t.bytes, k, u);
    CarriedAgrees(t.bytes, t.pos, k, u);
    ReadHeaderInPlace(t, v);
    assert ReadHeader(t, v) == ReadHeader(t.(lastHeader := t.pos), v);
  }

  lemma StopsIff(bytes: seq<Byte>, p: nat, k: nat, name: seq<Byte>, u: Locals)
    requires HeaderAt(bytes, p, u).0 == Success
    ensures Stops(bytes, p, name, u) <==> HeaderAt(bytes, p, Carried(bytes, k, u)).1.name == name
  {
    hide HeaderAt;
    CarriedAgrees(bytes, p, k, u);
  }

  lemma NextTurns(t: Tar, k: nat, u: Locals)
    requires t.at == t.pos == Turn(t.bytes, k, u) && HeaderAt(t.bytes, t.pos, u).0 == Success
    ensures var q := Turn(t.bytes, k + 1, u);
            Next(t, u) == (t.(lastHeader := t.pos, at := q, pos := q), Success)
  {
    hide FromRaw, RoundUp, Wrap, Turn;
    ReadHeaderInPlace(t, u);
    TurnNext(t.bytes, k, u);
  }

  lemma SpliceTwice(bytes: seq<Byte>, at: nat, a: seq<Byte>, b: seq<Byte>)
    ensures Splice(Splice(bytes, at, a), at + |a|, b) == Splice(bytes, at, a + b)
  {
    if a == [] {
      assert a + b == b;
    } else if b == [] {
      assert a + b == a;
    } else {
      var x, y := Splice(Splice(bytes, at, a), at + |a|, b), Splice(bytes, at, a + b);
      assert |x| == |y|;
      assert forall i :: 0 <= i < |x| ==> x[i] == y[i];
    }
  }

  lemma WriteTwice(t: Tar, a: seq<Byte>, b: seq<Byte>)
    requires t.pos < U32
    ensures Write(Write(t, a), b) == Write(t, a + b)
  {
    hide Splice;
    WrapAdd(t.pos + |a|, |b|);
    SpliceTwice(t.bytes, t.at, a, b);
  }

  lemma PaddingWraps(pos: nat)
    requires pos < U32
    ensures Wrap(RoundUp(pos, 512) - pos) == Padding(pos)
  {
    hide Padding, RoundUp, Wrap;
    RoundUpIsLeastMultiple(pos);
    PaddingAligns(pos);
    if pos <= U32 - 512 {
      NoWrap(Padding(pos));
    } else {
      NextMultiple(pos + Padding(pos));
      WrapNegative(pos);
    }
  }

  lemma WrapNegative(n: nat)
    requires 0 < n < U32
    ensures Wrap(0 - n) == U32 - n
  {
  }
}
