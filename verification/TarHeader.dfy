/** The 512-byte record header of microtar.c: building it, summing it and reading it back. */
module TarHeader {
  import opened Common
  import opened Octal

  const RECORD := 512
  const SUM_AT := 148   // checksum field
  const TYPE_AT := 156  // first byte after it

  const NAME_LEN := 100 // the name arrays, in the record and in mtar_header_t

  /** The error codes, and `Overrun` for a call that reads or writes past the end of an array, whose
      further effect the source leaves open: what is given beside it means nothing. */
  datatype Error = Success | ReadFail | BadChecksum | NullRecord | NotFound | Overrun

  datatype Header = Header(mode: nat, owner: nat, size: nat, mtime: nat, kind: nat,
                           name: seq<Byte>, linkname: seq<Byte>)

  /** What a call finds in the locals it does not initialise before scanning into them. */
  datatype Locals = Locals(header: Header, checksum: nat)

  const REGULAR := 48   // '0'
  const DIRECTORY := 53 // '5'

  function FileHeader(name: seq<Byte>, size: nat): Header {
    Header(436, 0, size, 0, REGULAR, name, [])
  }

  function DirHeader(name: seq<Byte>): Header {
    Header(509, 0, 0, 0, DIRECTORY, name, [])
  }

  predicate IsText(s: seq<Byte>) { |s| < NAME_LEN && 0 !in s }

  /** The C types of the fields: 32-bit numbers and terminated names in char[100]. */
  predicate Storable(h: Header) {
    && h.mode < U32 && h.owner < U32 && h.size < U32 && h.mtime < U32 && h.kind < U32
    && IsText(h.name) && IsText(h.linkname)
  }

  /** The mode also fits its seven digits, and the type is a 7-bit character. */
  predicate Fits(h: Header) { Storable(h) && h.mode < Pow8(7) && h.kind < 128 }

  /** The header as it comes back: type 0 is stored as a regular file. */
  function Normal(h: Header): Header {
    if h.kind == 0 then h.(kind := REGULAR) else h
  }

  function Zeros(n: nat): (z: seq<Byte>)
    ensures |z| == n
  {
    Repeat(0, n)
  }

  // ---------------------------------------------------------------- checksum

  function Sum(s: seq<Byte>): (n: nat)
    ensures n <= 255 * |s|
  {
    if s == [] then 0 else Sum(s[..|s| - 1]) + s[|s| - 1]
  }

  lemma {:induction false} SumAppend(a: seq<Byte>, b: seq<Byte>)
    ensures Sum(a + b) == Sum(a) + Sum(b)
    decreases |b|
  {
    if b == [] {
      assert a + b == a;
    } else {
      assert (a + b)[..|a + b| - 1] == a + b[..|b| - 1];
      SumAppend(a, b[..|b| - 1]);
    }
  }

  lemma SumUpdate(s: seq<Byte>, k: nat, b: Byte)
    requires k < |s|
    ensures Sum(s[k := b]) == Sum(s) + b - s[k]
  {
    var p, q := s[..k], s[k + 1..];
    assert s == p + ([s[k]] + q) && s[k := b] == p + ([b] + q);
    SumAppend(p, [s[k]] + q); SumAppend([s[k]], q);
    SumAppend(p, [b] + q); SumAppend([b], q);
    assert Sum([b]) == Sum([]) + b && Sum([s[k]]) == Sum([]) + s[k] by {
      assert [b][..0] == [] && [s[k]][..0] == [];
    }
  }

  function HeaderSum(raw: seq<Byte>): (n: nat)
    requires |raw| == RECORD
    ensures n < Pow8(6)
  {
    assert Pow8(6) == 262144 by { assert Pow8(3) == 512; }
    256 + Sum(raw[..SUM_AT]) + Sum(raw[TYPE_AT..])
  }

  /** The rule of IEEE Std 1003.1, ustar Interchange Format: the sum of all bytes of the header
      with the checksum field taken as eight spaces. */
  lemma HeaderSumIsUstar(raw: seq<Byte>)
    requires |raw| == RECORD
    ensures HeaderSum(raw) == Sum(raw[..SUM_AT] + Repeat(32, 8) + raw[TYPE_AT..])
  {
    SumAppend(raw[..SUM_AT] + Repeat(32, 8), raw[TYPE_AT..]);
    SumAppend(raw[..SUM_AT], Repeat(32, 8));
    assert Sum(Repeat(32, 8)) == 256 by { SumRepeat(32, 8); }
  }

  lemma {:induction false} SumRepeat(b: Byte, n: nat)
    ensures Sum(Repeat(b, n)) == b * n
  {
    if n > 0 {
      assert Repeat(b, n)[..n - 1] == Repeat(b, n - 1);
      SumRepeat(b, n - 1);
    }
  }

  // ---------------------------------------------------------------- raw header

  /** `text` written over `raw` at `at`. */
  function Put(raw: seq<Byte>, at: nat, text: seq<Byte>): (r: seq<Byte>)
    requires at + |text| <= |raw|
    ensures |r| == |raw|
  {
    raw[..at] + text + raw[at + |text|..]
  }

  function KindByte(kind: nat): Byte {
    if kind == 0 then REGULAR else kind % 256
  }

  /** The four numbers, printed in this order. */
  function Numbers(h: Header): (raw: seq<Byte>)
    requires Storable(h)
    ensures |raw| == RECORD
  {
    FourNumbersFit(h);
    var r := Put(Zeros(RECORD), 100, Digits(h.mode) + [0]);
    var r := Put(r, 108, Digits(h.owner) + [0]);
    var r := Put(r, 124, Digits(h.size) + [0]);
    Put(r, 136, Digits(h.mtime) + [0])
  }

  /** header_to_raw before the checksum is filled in: later fields may overwrite what earlier
      ones spilled. */
  function Fields(h: Header): (raw: seq<Byte>)
    requires Storable(h)
    ensures |raw| == RECORD
  {
    var r := Put(Numbers(h), TYPE_AT, [KindByte(h.kind)]);
    var r := Put(r, 0, h.name + [0]);
    Put(r, 157, h.linkname + [0])
  }

  function ToRaw(h: Header): (raw: seq<Byte>)
    requires Storable(h)
    ensures |raw| == RECORD
  {
    var r := Fields(h);
    SixDigits(HeaderSum(r));
    Put(Put(r, SUM_AT, PaddedDigits(HeaderSum(r), 6) + [0]), SUM_AT + 7, [32])
  }

  lemma Pow8Values()
    ensures Pow8(7) == 2097152 && Pow8(11) == 8589934592 && Pow8(6) == 262144
  {
    assert Pow8(3) == 512;
    assert Pow8(6) == 262144;
    assert Pow8(9) == 134217728;
  }

  lemma FourNumbersFit(h: Header)
    requires Storable(h)
    ensures |Digits(h.mode)| <= 11 && |Digits(h.owner)| <= 11
    ensures |Digits(h.size)| <= 11 && |Digits(h.mtime)| <= 11
  {
    Pow8Values();
    DigitsLength(h.mode, 11);
    DigitsLength(h.owner, 11);
    DigitsLength(h.size, 11);
    DigitsLength(h.mtime, 11);
  }

  lemma SixDigits(n: nat)
    requires n < Pow8(6)
    ensures |PaddedDigits(n, 6)| == 6
  {
    DigitsLength(n, 6);
  }

  /** The text up to the first NUL. */
  function TextAt(raw: seq<Byte>, at: nat): (s: seq<Byte>)
    requires at <= |raw|
    ensures at + |s| <= |raw| && 0 !in s
    decreases |raw| - at
  {
    if at == |raw| || raw[at] == 0 then [] else [raw[at]] + TextAt(raw, at + 1)
  }

  function OrElse(v: Option<nat>, before: nat): nat {
    if v.Some? then v.value else before
  }

  /** raw_to_header; a conversion that matches nothing leaves its target as it was.  Plain char
      is signed, so a type byte above 127 comes back sign-extended.  The checksum is scanned as far
      as the next NUL, which may be missing from the record; the names are copied as far as the next
      NUL, which may lie behind their arrays. */
  function FromRaw(raw: seq<Byte>, u: Locals): (Error, Header)
    requires |raw| == RECORD
  {
    if raw[SUM_AT] == 0 then (NullRecord, u.header)
    else if SUM_AT + |TextAt(raw, SUM_AT)| == RECORD then (Overrun, u.header)
    else if HeaderSum(raw) != OrElse(Scan(TextAt(raw, SUM_AT)), u.checksum) then (BadChecksum, u.header)
    else if |TextAt(raw, 0)| >= NAME_LEN || |TextAt(raw, 157)| >= NAME_LEN then (Overrun, u.header)
    else (Success, Header(OrElse(Scan(TextAt(raw, 100)), u.header.mode),
                          OrElse(Scan(TextAt(raw, 108)), u.header.owner),
                          OrElse(Scan(TextAt(raw, 124)), u.header.size),
                          OrElse(Scan(TextAt(raw, 136)), u.header.mtime),
                          if raw[TYPE_AT] < 128 then raw[TYPE_AT] else raw[TYPE_AT] + U32 - 256,
                          TextAt(raw, 0), TextAt(raw, 157)))
  }

  // ---------------------------------------------------------------- staying inside the arrays

  /** A text is at least `n` long exactly when the first `n` bytes hold no NUL. */
  lemma {:induction false} TextIsLongIff(raw: seq<Byte>, at: nat, n: nat)
    requires at + n <= |raw|
    ensures |TextAt(raw, at)| >= n <==> 0 !in raw[at..at + n]
    decreases n
  {
    if n > 0 {
      assert raw[at..at + n] == [raw[at]] + raw[at + 1..at + n];
      TextIsLongIff(raw, at + 1, n - 1);
    }
  }

  /** raw_to_header leaves its arrays exactly when the record is not a null record and either no NUL
      follows in it from the checksum on, or the checksum is right and one of the two names fills its
      100 bytes without one. */
  lemma OverrunIff(raw: seq<Byte>, u: Locals)
    requires |raw| == RECORD
    ensures FromRaw(raw, u).0 == Overrun <==>
              && raw[SUM_AT] != 0
              && (|| 0 !in raw[SUM_AT..]
                  || (&& HeaderSum(raw) == OrElse(Scan(TextAt(raw, SUM_AT)), u.checksum)
                      && (0 !in raw[..100] || 0 !in raw[157..257])))
  {
    hide Scan, TextAt, HeaderSum;
    TextIsLongIff(raw, SUM_AT, RECORD - SUM_AT);
    TextIsLongIff(raw, 0, NAME_LEN);
    TextIsLongIff(raw, 157, NAME_LEN);
    assert raw[SUM_AT..SUM_AT + (RECORD - SUM_AT)] == raw[SUM_AT..] && raw[0..0 + NAME_LEN] == raw[..100];
  }

  /** What a scanned field gives: its number, or else what was there before. */
  predicate Gives(field: Option<nat>, before: nat, n: nat) {
    (field.Some? ==> n == field.value) && (field.None? ==> n == before)
  }

  /** A record that is no null record and stays inside the arrays is refused exactly when the checksum
      it gives is not the sum of its bytes.  One that is accepted gives its fields. */
  lemma AcceptedIff(raw: seq<Byte>, u: Locals)
    requires |raw| == RECORD && FromRaw(raw, u).0 != Overrun
    ensures FromRaw(raw, u).0 == NullRecord <==> raw[148] == 0
    ensures raw[148] != 0 ==>
              (FromRaw(raw, u).0 == Success <==> Gives(Scan(TextAt(raw, 148)), u.checksum, HeaderSum(raw)))
    ensures var (err, h) := FromRaw(raw, u);
            if err == Success then
              && Gives(Scan(TextAt(raw, 100)), u.header.mode, h.mode)
              && Gives(Scan(TextAt(raw, 108)), u.header.owner, h.owner)
              && Gives(Scan(TextAt(raw, 124)), u.header.size, h.size)
              && Gives(Scan(TextAt(raw, 136)), u.header.mtime, h.mtime)
              && h.kind % 256 == raw[156] && (h.kind < 128 || U32 - 128 <= h.kind < U32)
              && h.name == TextAt(raw, 0) && h.linkname == TextAt(raw, 157)
            else h == u.header
  {
    hide Scan, TextAt, HeaderSum;
  }

  /** So an accepted header has names that can be written again. */
  lemma AcceptedNames(raw: seq<Byte>, u: Locals)
    requires |raw| == RECORD && FromRaw(raw, u).0 == Success
    ensures IsText(FromRaw(raw, u).1.name) && IsText(FromRaw(raw, u).1.linkname)
  {
    hide Scan, TextAt, HeaderSum;
  }

  // ---------------------------------------------------------------- header round trip

  lemma {:induction false} TextAtIs(raw: seq<Byte>, at: nat, text: seq<Byte>)
    requires at + |text| < |raw| && 0 !in text
    requires raw[at..at + |text|] == text && raw[at + |text|] == 0
    ensures TextAt(raw, at) == text
    decreases |text|
  {
    if text != [] {
      assert raw[at] == raw[at..at + |text|][0] == text[0];
      assert raw[at + 1..at + 1 + |text[1..]|] == raw[at..at + |text|][1..];
      TextAtIs(raw, at + 1, text[1..]);
    }
  }

  /** The digits found in the mode field: of a mode with more than seven the last ones and the end
      are overwritten by the owner, which follows without a gap. */
  function ModeText(h: Header): seq<Byte> {
    var mode := Digits(h.mode);
    if |mode| <= 7 then mode else mode[..8] + Digits(h.owner)
  }

  /** Which bytes of the finished header hold what. */
  lemma FieldContents(h: Header)
    requires Storable(h)
    ensures var raw := ToRaw(h);
            && Holds(raw, 0, h.name) && Holds(raw, 157, h.linkname)
            && NumbersHeld(raw, h) && raw[TYPE_AT] == KindByte(h.kind)
  {
    hide Put, Holds, NumbersHeld, Digits, PaddedDigits, HeaderSum, KindByte;
    FourNumbersFit(h);
    SixDigits(HeaderSum(Fields(h)));
    var r4 := NumbersPut(h);
    var r5 := Put(r4, TYPE_AT, [KindByte(h.kind)]);
    NumbersOver(h, r4, TYPE_AT, [KindByte(h.kind)]);
    var r6 := Put(r5, 0, h.name + [0]);
    HoldsPut(r5, 0, h.name);
    NumbersOver(h, r5, 0, h.name + [0]);
    var r7 := Put(r6, 157, h.linkname + [0]);
    HoldsPut(r6, 157, h.linkname);
    HoldsOver(r6, 0, h.name, 157, h.linkname + [0]);
    NumbersOver(h, r6, 157, h.linkname + [0]);
    var sum := PaddedDigits(HeaderSum(r7), 6) + [0];
    var r8 := Put(r7, SUM_AT, sum);
    HoldsOver(r7, 0, h.name, SUM_AT, sum);
    HoldsOver(r7, 157, h.linkname, SUM_AT, sum);
    NumbersOver(h, r7, SUM_AT, sum);
    HoldsOver(r8, 0, h.name, SUM_AT + 7, [32]);
    HoldsOver(r8, 157, h.linkname, SUM_AT + 7, [32]);
    NumbersOver(h, r8, SUM_AT + 7, [32]);
    PutAt(r4, TYPE_AT, [KindByte(h.kind)], TYPE_AT);
    PutAt(r5, 0, h.name + [0], TYPE_AT);
    PutAt(r6, 157, h.linkname + [0], TYPE_AT);
    PutAt(r7, SUM_AT, sum, TYPE_AT);
    PutAt(r8, SUM_AT + 7, [32], TYPE_AT);
  }

  /** The four number fields as `header_to_raw` leaves them. */
  ghost predicate NumbersHeld(raw: seq<Byte>, h: Header) {
    && Holds(raw, 100, ModeText(h)) && Holds(raw, 108, Digits(h.owner))
    && Holds(raw, 124, Digits(h.size)) && Holds(raw, 136, Digits(h.mtime))
  }

  lemma NumbersPut(h: Header) returns (r4: seq<Byte>)
    requires Storable(h)
    ensures r4 == Numbers(h) && NumbersHeld(r4, h)
  {
    hide Put, Holds, Digits, ModeText;
    FourNumbersFit(h);
    var mode, owner := ModeText(h), Digits(h.owner);
    var r2 := ModeAndOwner(h);
    ModeTextEnds(h);
    var r3 := Put(r2, 124, Digits(h.size) + [0]);
    HoldsPut(r2, 124, Digits(h.size));
    HoldsOver(r2, 100, mode, 124, Digits(h.size) + [0]);
    HoldsOver(r2, 108, owner, 124, Digits(h.size) + [0]);
    r4 := Put(r3, 136, Digits(h.mtime) + [0]);
    HoldsPut(r3, 136, Digits(h.mtime));
    HoldsOver(r3, 100, mode, 136, Digits(h.mtime) + [0]);
    HoldsOver(r3, 108, owner, 136, Digits(h.mtime) + [0]);
    HoldsOver(r3, 124, Digits(h.size), 136, Digits(h.mtime) + [0]);
  }

  lemma ModeTextEnds(h: Header)
    requires Storable(h)
    ensures |ModeText(h)| <= 19
  {
    hide Digits;
    FourNumbersFit(h);
  }

  /** The mode and then the owner over its eighth place. */
  lemma ModeAndOwner(h: Header) returns (r2: seq<Byte>)
    requires Storable(h)
    ensures |Digits(h.mode)| <= 11 && |Digits(h.owner)| <= 11
    ensures r2 == Put(Put(Zeros(RECORD), 100, Digits(h.mode) + [0]), 108, Digits(h.owner) + [0])
    ensures Holds(r2, 100, ModeText(h)) && Holds(r2, 108, Digits(h.owner))
  {
    hide Put, Holds, Digits;
    FourNumbersFit(h);
    var mode, owner := Digits(h.mode), Digits(h.owner);
    var r1 := Put(Zeros(RECORD), 100, mode + [0]);
    r2 := Put(r1, 108, owner + [0]);
    HoldsPut(r1, 108, owner);
    if |mode| <= 7 {
      HoldsPut(Zeros(RECORD), 100, mode);
      HoldsOver(r1, 100, mode, 108, owner + [0]);
    } else {
      Overlap(Zeros(RECORD), mode, owner);
    }
  }

  lemma Overlap(raw: seq<Byte>, mode: seq<Byte>, owner: seq<Byte>)
    requires |raw| == RECORD && 8 <= |mode| <= 11 && |owner| <= 11
    ensures Holds(Put(Put(raw, 100, mode + [0]), 108, owner + [0]), 100, mode[..8] + owner)
  {
    var r1 := Put(raw, 100, mode + [0]);
    var r2 := Put(r1, 108, owner + [0]);
    var text := mode[..8] + owner;
    forall k | 0 <= k < |text| ensures r2[100 + k] == text[k] {
      PutAt(r1, 108, owner + [0], 100 + k);
      PutAt(raw, 100, mode + [0], 100 + k);
    }
    assert r2[100..100 + |text|] == text;
    PutAt(r1, 108, owner + [0], 108 + |owner|);
  }

  lemma PutAt(raw: seq<Byte>, at: nat, text: seq<Byte>, k: nat)
    requires at + |text| <= |raw| && k < |raw|
    ensures Put(raw, at, text)[k] == if at <= k < at + |text| then text[k - at] else raw[k]
  {
  }

  /** `raw` has `text`, terminated, at `at`. */
  ghost predicate Holds(raw: seq<Byte>, at: nat, text: seq<Byte>) {
    at + |text| < |raw| && raw[at..at + |text|] == text && raw[at + |text|] == 0
  }

  lemma HoldsPut(raw: seq<Byte>, at: nat, text: seq<Byte>)
    requires at + |text| < |raw|
    ensures Holds(Put(raw, at, text + [0]), at, text)
  {
  }

  lemma HoldsOver(raw: seq<Byte>, at: nat, text: seq<Byte>, to: nat, more: seq<Byte>)
    requires Holds(raw, at, text) && to + |more| <= |raw|
    requires at + |text| < to || to + |more| <= at
    ensures Holds(Put(raw, to, more), at, text)
  {
    var r := Put(raw, to, more);
    forall i | at <= i <= at + |text| ensures r[i] == raw[i] {
    }
    assert r[at..at + |text|] == raw[at..at + |text|];
  }

  lemma NumbersOver(h: Header, raw: seq<Byte>, to: nat, more: seq<Byte>)
    requires Storable(h) && to + |more| <= |raw| && (to + |more| <= 100 || 148 <= to)
    requires NumbersHeld(raw, h)
    ensures NumbersHeld(Put(raw, to, more), h)
  {
    hide Holds, Put, Digits, ModeText;
    FourNumbersFit(h);
    ModeTextEnds(h);
    HoldsOver(raw, 100, ModeText(h), to, more);
    HoldsOver(raw, 108, Digits(h.owner), to, more);
    HoldsOver(raw, 124, Digits(h.size), to, more);
    HoldsOver(raw, 136, Digits(h.mtime), to, more);
  }

  /** The checksum is stored in a form that scans back to it, outside the bytes it sums. */
  lemma ChecksumStored(h: Header)
    requires Storable(h)
    ensures var raw := ToRaw(h);
            && raw[SUM_AT] != 0
            && Scan(TextAt(raw, SUM_AT)) == Some(HeaderSum(raw))
            && |TextAt(raw, SUM_AT)| == 6 && raw[SUM_AT + 6] == 0
  {
    hide Fields, PaddedDigits, Scan, TextAt;
    var r := Fields(h);
    var n := HeaderSum(r);
    SixDigits(n);
    var text := PaddedDigits(n, 6);
    HoldsPut(r, SUM_AT, text);
    var raw := ToRaw(h);
    HoldsOver(Put(r, SUM_AT, text + [0]), SUM_AT, text, SUM_AT + 7, [32]);
    assert raw[..SUM_AT] == r[..SUM_AT] && raw[TYPE_AT..] == r[TYPE_AT..];
    TextAtIs(raw, SUM_AT, text);
    Pow8Values();
    ScanPrinted(n, 6);
    assert raw[SUM_AT] == raw[SUM_AT..SUM_AT + 6][0] == text[0];
  }

  lemma TextField(raw: seq<Byte>, at: nat, text: seq<Byte>)
    requires Holds(raw, at, text) && 0 !in text
    ensures TextAt(raw, at) == text
  {
    TextAtIs(raw, at, text);
  }

  lemma ScanField(raw: seq<Byte>, at: nat, n: nat)
    requires Holds(raw, at, Digits(n)) && n < U32
    ensures Scan(TextAt(raw, at)) == Some(n)
  {
    TextAtIs(raw, at, Digits(n));
    ScanPrinted(n, 1);
  }

  /** What the mode field is read as. */
  function ModeRead(h: Header): nat { Value(ModeText(h)) % U32 }

  /** The type byte as a signed character. */
  function KindRead(h: Header): nat {
    var b := KindByte(h.kind);
    if b < 128 then b else b + U32 - 256
  }

  lemma ScanMode(raw: seq<Byte>, h: Header)
    requires Storable(h) && Holds(raw, 100, ModeText(h))
    ensures Scan(TextAt(raw, 100)) == Some(ModeRead(h))
  {
    hide Holds, Scan, TextAt, Digits, Value, Pow8;
    var text := ModeText(h);
    ModeTextEnds(h);
    ValueBelow(text);
    PowMonotone(|text|, 19);
    Pow8Of19();
    TextField(raw, 100, text);
    ScanAllDigits(text);
  }

  lemma Pow8Of19()
    ensures Pow8(19) < TWO_64
  {
    Pow8Values();
    assert Pow8(14) == 8 * 8 * 8 * Pow8(11);
    assert Pow8(17) == 8 * 8 * 8 * Pow8(14);
    assert Pow8(19) == 8 * 8 * Pow8(17);
  }

  lemma ParsedFields(h: Header)
    requires Storable(h)
    ensures var raw := ToRaw(h);
            && Scan(TextAt(raw, 100)) == Some(ModeRead(h)) && Scan(TextAt(raw, 108)) == Some(h.owner)
            && Scan(TextAt(raw, 124)) == Some(h.size) && Scan(TextAt(raw, 136)) == Some(h.mtime)
            && TextAt(raw, 0) == h.name && TextAt(raw, 157) == h.linkname
            && raw[TYPE_AT] == KindByte(h.kind)
  {
    hide ToRaw, Holds, Scan, TextAt, Digits, ModeText, ModeRead, KindByte;
    var raw := ToRaw(h);
    FieldContents(h);
    ScanMode(raw, h);
    ScanField(raw, 108, h.owner);
    ScanField(raw, 124, h.size);
    ScanField(raw, 136, h.mtime);
    TextField(raw, 0, h.name);
    TextField(raw, 157, h.linkname);
  }

  /** What raw_to_header makes of any header that header_to_raw can write: owner, size, mtime and
      names come back as they were. */
  lemma HeaderComesBack(h: Header, u: Locals)
    requires Storable(h)
    ensures FromRaw(ToRaw(h), u) == (Success, h.(mode := ModeRead(h), kind := KindRead(h)))
  {
    hide ToRaw, Scan, TextAt, ModeRead, HeaderSum;
    ChecksumStored(h);
    ParsedFields(h);
  }

  /** The number of octal digits. */
  function Places(n: nat): (d: nat)
    ensures d >= 1
  {
    |Digits(n)|
  }

  /** The number that the first eight digits of the mode and all those of the owner make together. */
  function Spilled(mode: nat, owner: nat): nat
    requires mode >= Pow8(7)
  {
    DigitsLength(mode, 7);
    Joined(Leading(mode, Places(mode) - 8), Places(owner), owner)
  }

  lemma ModeReadIs(h: Header)
    requires Storable(h)
    ensures ModeRead(h) == if h.mode < Pow8(7) then h.mode else Spilled(h.mode, h.owner) % U32
  {
    hide Digits, Value, Pow8, Joined, Leading;
    DigitsLength(h.mode, 7);
    ValueOfDigits(h.mode);
    if h.mode >= Pow8(7) {
      var mode, owner := Digits(h.mode), Digits(h.owner);
      ValueAppend(mode[..8], owner);
      LeadingDigits(h.mode, 8);
      ValueOfDigits(h.owner);
    }
    assert h.mode % U32 == h.mode;
  }

  /** raw_to_header undoes header_to_raw exactly when the mode has at most seven digits, or what its
      first eight and the owner make together is the mode again in 32 bits, and the type is a signed
      character. */
  lemma HeaderRoundTripIff(h: Header, u: Locals)
    requires Storable(h)
    ensures FromRaw(ToRaw(h), u) == (Success, Normal(h)) <==>
              && (h.mode < Pow8(7) || Spilled(h.mode, h.owner) % U32 == h.mode)
              && (h.kind < 128 || h.kind >= U32 - 128)
  {
    hide ToRaw, FromRaw, ModeRead, Spilled, Pow8;
    HeaderComesBack(h, u);
    ModeReadIs(h);
    KindReadIff(h);
  }

  /** A mode of eight digits is lost with every owner of one or two, 0 among them: it comes back
      multiplied by 8 or 64. */
  lemma EightDigitModeIsLost(h: Header, u: Locals)
    requires Storable(h) && Pow8(7) <= h.mode < Pow8(8) && h.owner < 64
    ensures FromRaw(ToRaw(h), u)
         == (Success, h.(mode := (if h.owner < 8 then 8 else 64) * h.mode + h.owner, kind := KindRead(h)))
    ensures FromRaw(ToRaw(h), u) != (Success, Normal(h))
  {
    hide ToRaw, FromRaw, ModeRead, KindRead, Spilled;
    HeaderComesBack(h, u);
    ModeReadIs(h);
    SpilledEight(h.mode, h.owner);
    Pow8Values();
  }

  lemma SpilledEight(mode: nat, owner: nat)
    requires Pow8(7) <= mode < Pow8(8) && owner < 64
    ensures var factor := if owner < 8 then 8 else 64;
            Spilled(mode, owner) == factor * mode + owner && mode < factor * mode + owner < U32
  {
    hide Digits;
    DigitsLength(mode, 7);
    DigitsLength(mode, 8);
    DigitsLength(owner, 1);
    DigitsLength(owner, 2);
    SmallPowers();
  }

  lemma SmallPowers()
    ensures Pow8(1) == 8 && Pow8(2) == 64 && Pow8(7) == 2097152 && Pow8(8) == 16777216
  {
    Pow8Values();
    assert Pow8(0) == 1;
  }

  /** Some modes do survive: one of eleven digits that is also the owner. */
  lemma ModeLikeOwnerSurvives(h: Header, u: Locals)
    requires Storable(h) && h.mode == h.owner >= Pow8(10) && h.kind < 128
    ensures FromRaw(ToRaw(h), u) == (Success, Normal(h))
  {
    hide ToRaw, FromRaw, Spilled, Pow8;
    HeaderRoundTripIff(h, u);
    PowMonotone(7, 10);
    SpilledElevenTwice(h.mode);
  }

  lemma SpilledElevenTwice(n: nat)
    requires Pow8(10) <= n < U32
    ensures n >= Pow8(7) && Spilled(n, n) % U32 == n
  {
    hide Leading, Digits, Pow8;
    PowMonotone(7, 10);
    Pow8Values();
    DigitsLength(n, 10);
    DigitsLength(n, 11);
    DropMultiple(Leading(n, 3), n);
  }

  lemma DropMultiple(a: nat, n: nat)
    requires n < U32
    ensures (a * 8589934592 + n) % U32 == n
  {
  }

  lemma KindReadIff(h: Header)
    requires h.kind < U32
    ensures KindRead(h) == Normal(h).kind <==> h.kind < 128 || h.kind >= U32 - 128
  {
  }

  /** In particular for every file and directory, whatever its owner. */
  lemma HeaderRoundTrip(h: Header, u: Locals)
    requires Fits(h)
    ensures FromRaw(ToRaw(h), u) == (Success, Normal(h))
  {
    hide ToRaw, FromRaw, Digits, Value, Pow8;
    DigitsLength(h.mode, 7);
    HeaderRoundTripIff(h, u);
  }

  /** The record of a file spells the mode "664", that of a directory "775", both with owner "0"; the
      type is '0' or '5', and name and size are the ones given. */
  lemma FileAndDirRecords(name: seq<Byte>, size: nat)
    requires IsText(name) && size < U32
    ensures var raw := ToRaw(FileHeader(name, size));
            && raw[100..104] == [54, 54, 52, 0] && raw[108..110] == [48, 0] && raw[156] == 48
            && TextAt(raw, 0) == name && Scan(TextAt(raw, 124)) == Some(size)
            && Scan(TextAt(raw, 136)) == Some(0) && TextAt(raw, 157) == []
    ensures var raw := ToRaw(DirHeader(name));
            && raw[100..104] == [55, 55, 53, 0] && raw[108..110] == [48, 0] && raw[156] == 53
            && TextAt(raw, 0) == name && Scan(TextAt(raw, 124)) == Some(0)
            && Scan(TextAt(raw, 136)) == Some(0) && TextAt(raw, 157) == []
  {
    hide ToRaw, Scan, TextAt;
    ShortFields(FileHeader(name, size), [54, 54, 52]);
    ShortFields(DirHeader(name), [55, 55, 53]);
  }

  lemma ShortFields(h: Header, mode: seq<Byte>)
    requires Storable(h) && Digits(h.mode) == mode && |mode| == 3 && h.owner == 0
    ensures var raw := ToRaw(h);
            && raw[100..104] == mode + [0] && raw[108..110] == [48, 0] && raw[156] == KindByte(h.kind)
            && TextAt(raw, 0) == h.name && Scan(TextAt(raw, 124)) == Some(h.size)
            && Scan(TextAt(raw, 136)) == Some(h.mtime) && TextAt(raw, 157) == h.linkname
  {
    hide ToRaw, Scan, TextAt;
    FieldContents(h);
    ParsedFields(h);
    var raw := ToRaw(h);
    assert Digits(0) == [48];
    assert raw[100..104] == raw[100..103] + [raw[103]] && raw[108..110] == raw[108..109] + [raw[109]];
  }

  // ---------------------------------------------------------------- damaged headers

  lemma {:induction false} TextAtAgree(a: seq<Byte>, b: seq<Byte>, at: nat, end: nat)
    requires |a| == |b| && at <= end < |a| && a[end] == 0
    requires forall i :: at <= i <= end ==> a[i] == b[i]
    ensures TextAt(a, at) == TextAt(b, at)
    decreases end - at
  {
    if at < end && a[at] != 0 {
      TextAtAgree(a, b, at + 1, end);
    }
  }

  /** Changing any one byte outside the checksum field of an accepted header gets it rejected,
      provided the checksum text ends inside its field. */
  lemma OneByteDamageIsCaught(raw: seq<Byte>, k: nat, b: Byte, end: nat, u: Locals)
    requires |raw| == RECORD && k < RECORD && b != raw[k]
    requires k < SUM_AT || TYPE_AT <= k
    requires SUM_AT <= end < TYPE_AT && raw[end] == 0
    requires FromRaw(raw, u).0 == Success
    ensures FromRaw(raw[k := b], u).0 == BadChecksum
  {
    var bad := raw[k := b];
    TextAtAgree(raw, bad, SUM_AT, end);
    if k < SUM_AT {
      assert bad[..SUM_AT] == raw[..SUM_AT][k := b] && bad[TYPE_AT..] == raw[TYPE_AT..];
      SumUpdate(raw[..SUM_AT], k, b);
    } else {
      assert bad[..SUM_AT] == raw[..SUM_AT] && bad[TYPE_AT..] == raw[TYPE_AT..][k - TYPE_AT := b];
      SumUpdate(raw[TYPE_AT..], k - TYPE_AT, b);
    }
  }

  /** In particular for every header that header_to_raw can write, fitting or not. */
  lemma WrittenHeaderDamageIsCaught(h: Header, k: nat, b: Byte, u: Locals)
    requires Storable(h) && k < RECORD && b != ToRaw(h)[k]
    requires k < SUM_AT || TYPE_AT <= k
    ensures FromRaw(ToRaw(h)[k := b], u).0 == BadChecksum
  {
    hide ToRaw, FromRaw;
    ChecksumStored(h);
    HeaderComesBack(h, u);
    OneByteDamageIsCaught(ToRaw(h), k, b, SUM_AT + 6, u);
  }

  // ---------------------------------------------------------------- the C functions

  /** `checksum` */
  method Checksum(rh: array<Byte>) returns (res: nat)
    requires rh.Length == RECORD
    ensures res == HeaderSum(rh[..])
  {
    res := 256;
    for i := 0 to SUM_AT
      invariant res == 256 + Sum(rh[..i])
    {
      assert rh[..i + 1][..i] == rh[..i];
      res := res + rh[i];
    }
    assert rh[..][..SUM_AT] == rh[..SUM_AT];
    for i := TYPE_AT to RECORD
      invariant res == 256 + Sum(rh[..SUM_AT]) + Sum(rh[TYPE_AT..i])
    {
      assert rh[TYPE_AT..i + 1][..i - TYPE_AT] == rh[TYPE_AT..i];
      res := res + rh[i];
    }
    assert rh[TYPE_AT..RECORD] == rh[..][TYPE_AT..];
  }

  /** What sprintf, strcpy and the single assignments do to the header in memory. */
  method Copy(rh: array<Byte>, at: nat, text: seq<Byte>)
    requires at + |text| <= rh.Length
    modifies rh
    ensures rh[..] == Put(old(rh[..]), at, text)
  {
    for i := 0 to |text|
      invariant forall k :: 0 <= k < rh.Length ==>
                  rh[k] == if at <= k < at + i then text[k - at] else old(rh[k])
    {
      rh[at + i] := text[i];
    }
  }

  /** `header_to_raw` */
  method HeaderToRaw(rh: array<Byte>, h: Header)
    requires rh.Length == RECORD && Storable(h)
    modifies rh
    ensures rh[..] == ToRaw(h)
  {
    FourNumbersFit(h);
    forall i | 0 <= i < rh.Length { rh[i] := 0; }
    assert rh[..] == Zeros(RECORD);
    Copy(rh, 100, Digits(h.mode) + [0]);
    Copy(rh, 108, Digits(h.owner) + [0]);
    Copy(rh, 124, Digits(h.size) + [0]);
    Copy(rh, 136, Digits(h.mtime) + [0]);
    Copy(rh, TYPE_AT, [KindByte(h.kind)]);
    Copy(rh, 0, h.name + [0]);
    Copy(rh, 157, h.linkname + [0]);
    var sum := Checksum(rh);
    SixDigits(sum);
    Copy(rh, SUM_AT, PaddedDigits(sum, 6) + [0]);
    Copy(rh, SUM_AT + 7, [32]);
  }

  /** `strcpy` from the record into another array.  `inside` is false where it would leave either. */
  method StrCpy(dst: array<Byte>, src: array<Byte>, at: nat) returns (inside: bool)
    requires dst != src && at <= src.Length
    modifies dst
    ensures inside <==> |TextAt(src[..], at)| < dst.Length && at + |TextAt(src[..], at)| < src.Length
    ensures inside ==> TextAt(dst[..], 0) == TextAt(src[..], at)
  {
    var n := 0;
    ghost var text := TextAt(src[..], at);
    while at + n < src.Length && n < dst.Length
      invariant n <= dst.Length && at + n <= src.Length
      invariant n <= |text| && TextAt(src[..], at + n) == text[n..]
      invariant dst[..n] == text[..n]
    {
      dst[n] := src[at + n];
      if src[at + n] == 0 {
        TextAtIs(dst[..], 0, text);
        return true;
      }
      assert text[n] == text[n..][0] == src[at + n];
      n := n + 1;
    }
    inside := false;
  }

  /** `raw_to_header`; the names go through the two arrays of mtar_header_t. */
  method RawToHeader(rh: array<Byte>, u: Locals) returns (err: Error, h: Header)
    requires rh.Length == RECORD
    ensures (err, h) == FromRaw(rh[..], u)
  {
    hide Scan, HeaderSum;
    h := u.header;
    if rh[SUM_AT] == 0 {
      return NullRecord, h;
    }
    var chksum1 := Checksum(rh);
    var text := TextAt(rh[..], SUM_AT);
    if SUM_AT + |text| == RECORD {
      return Overrun, h;
    }
    var chksum2 := OrElse(Scan(text), u.checksum);
    if chksum1 != chksum2 {
      return BadChecksum, h;
    }
    h := h.(mode := OrElse(Scan(TextAt(rh[..], 100)), h.mode));
    h := h.(owner := OrElse(Scan(TextAt(rh[..], 108)), h.owner));
    h := h.(size := OrElse(Scan(TextAt(rh[..], 124)), h.size));
    h := h.(mtime := OrElse(Scan(TextAt(rh[..], 136)), h.mtime));
    h := h.(kind := if rh[TYPE_AT] < 128 then rh[TYPE_AT] else rh[TYPE_AT] + U32 - 256);
    var name, linkname := new Byte[NAME_LEN], new Byte[NAME_LEN];
    var inside := StrCpy(name, rh, 0);
    if inside {
      inside := StrCpy(linkname, rh, 157);
    }
    if !inside {
      return Overrun, u.header;
    }
    h := h.(name := TextAt(name[..], 0));
    h := h.(linkname := TextAt(linkname[..], 0));
    err := Success;
  }
}
