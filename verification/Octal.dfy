/** The two conversions microtar leaves to the C library: printing an unsigned number with "%o"
    and scanning one back with sscanf "%o".  Text is a sequence of byte values. */
module Octal {

  import opened Common

  type Byte = x: int | 0 <= x < 256

  predicate IsDigit(b: Byte) { 48 <= b < 56 }

  predicate IsSpace(b: Byte) { b == 32 || 9 <= b <= 13 }

  predicate AllDigits(s: seq<Byte>) { forall i :: 0 <= i < |s| ==> IsDigit(s[i]) }

  /** "%o" */
  function Digits(n: nat): (s: seq<Byte>)
    ensures AllDigits(s) && s != []
  {
    if n < 8 then [48 + n] else Digits(n / 8) + [48 + n % 8]
  }

  function Repeat(b: Byte, n: nat): (s: seq<Byte>)
    ensures |s| == n && forall i :: 0 <= i < n ==> s[i] == b
  {
    seq(n, _ => b)
  }

  /** "%0<width>o" */
  function PaddedDigits(n: nat, width: nat): (s: seq<Byte>)
    ensures AllDigits(s) && s != []
  {
    var d := Digits(n);
    Repeat(48, if |d| < width then width - |d| else 0) + d
  }

  /** The number a string of octal digits denotes. */
  function Value(s: seq<Byte>): nat
    requires AllDigits(s)
  {
    if s == [] then 0 else Value(s[..|s| - 1]) * 8 + (s[|s| - 1] - 48)
  }

  function Pow8(k: nat): (p: nat)
    ensures p > 0
  {
    if k == 0 then 1 else 8 * Pow8(k - 1)
  }

  /** `n` without its last `k` octal digits. */
  function Leading(n: nat, k: nat): nat { if k == 0 then n else Leading(n / 8, k - 1) }

  /** The number written as the digits of `a` and then `k` digits of `b`. */
  function Joined(a: nat, k: nat, b: nat): nat { a * Pow8(k) + b }

  function SkipSpace(s: seq<Byte>): seq<Byte> {
    if s != [] && IsSpace(s[0]) then SkipSpace(s[1..]) else s
  }

  function TakeDigits(s: seq<Byte>): (d: seq<Byte>)
    ensures AllDigits(d)
  {
    if s != [] && IsDigit(s[0]) then [s[0]] + TakeDigits(s[1..]) else []
  }

  /** sscanf "%o" into a 32-bit unsigned: white space, an optional sign, digits; the digits are
      read as a saturating 64-bit number and truncated.  Without a digit nothing is assigned. */
  function Scan(s: seq<Byte>): (v: Option<nat>)
    ensures v.Some? ==> v.value < U32
  {
    var s := SkipSpace(s);
    var signed := s != [] && (s[0] == 43 || s[0] == 45);
    var negative := s != [] && s[0] == 45;
    var d := TakeDigits(if signed then s[1..] else s);
    if d == [] then None
    else if Value(d) >= TWO_64 then Some(U32 - 1)
    else if negative then Some((TWO_64 - Value(d)) % U32)
    else Some(Value(d) % U32)
  }

  /** Tab, line feed, vertical tab, form feed, carriage return and blank. */
  predicate IsBlank(b: Byte) { b in {9, 10, 11, 12, 13, 32} }

  predicate AllSpace(s: seq<Byte>) { forall i :: 0 <= i < |s| ==> IsBlank(s[i]) }

  lemma {:induction false} SkipAllSpace(space: seq<Byte>, rest: seq<Byte>)
    requires AllSpace(space) && (rest == [] || !IsBlank(rest[0]))
    ensures SkipSpace(space + rest) == rest
  {
    if space == [] {
      assert space + rest == rest;
    } else {
      assert (space + rest)[1..] == space[1..] + rest;
      SkipAllSpace(space[1..], rest);
    }
  }

  lemma {:induction false} TakeUpTo(d: seq<Byte>, rest: seq<Byte>)
    requires AllDigits(d) && (rest == [] || !IsDigit(rest[0]))
    ensures TakeDigits(d + rest) == d
  {
    if d == [] {
      assert d + rest == rest;
    } else {
      assert (d + rest)[1..] == d[1..] + rest;
      TakeUpTo(d[1..], rest);
    }
  }

  lemma NoBlankFirst(sign: seq<Byte>, d: seq<Byte>, rest: seq<Byte>)
    requires sign in {[], [43], [45]} && AllDigits(d)
    requires d == [] && sign == [] ==> rest == [] || (!IsBlank(rest[0]) && rest[0] != 43 && rest[0] != 45)
    ensures var s := sign + d + rest;
            && (s == [] || !IsBlank(s[0]))
            && (sign == [] ==> s == d + rest && (s == [] || (s[0] != 43 && s[0] != 45)))
            && (sign != [] ==> s[0] == sign[0] && s[1..] == d + rest)
  {
    var s := sign + d + rest;
    if sign == [] { assert s == d + rest; } else { assert s[1..] == d + rest; }
  }

  /** The grammar of a scanned field: white space, a plus, a minus or neither, octal digits, and then
      anything that is none.  The digits are read into 64 bits, which saturate, negated there behind a
      minus, and cut to 32; without a digit nothing is assigned. */
  lemma ScanReads(space: seq<Byte>, sign: seq<Byte>, d: seq<Byte>, rest: seq<Byte>)
    requires AllSpace(space) && sign in {[], [43], [45]} && AllDigits(d) && (rest == [] || !IsDigit(rest[0]))
    requires d == [] && sign == [] ==> rest == [] || (!IsBlank(rest[0]) && rest[0] != 43 && rest[0] != 45)
    ensures Scan(space + sign + d + rest)
         == if d == [] then None
            else if Value(d) >= TWO_64 then Some(0xffff_ffff)
            else if sign == [45] then Some((TWO_64 - Value(d)) % 0x1_0000_0000)
            else Some(Value(d) % 0x1_0000_0000)
  {
    hide Value, TakeDigits, SkipSpace, AllSpace;
    var s := sign + d + rest;
    assert space + sign + d + rest == space + s;
    NoBlankFirst(sign, d, rest);
    SkipAllSpace(space, s);
    TakeUpTo(d, rest);
  }

  // ---------------------------------------------------------------- round trip

  lemma {:induction false} ValueOfDigits(n: nat)
    ensures Value(Digits(n)) == n
  {
    if n < 8 {
      assert Value([48 + n]) == Value([]) * 8 + n;
    } else {
      ValueOfDigits(n / 8);
      assert Digits(n)[..|Digits(n)| - 1] == Digits(n / 8);
    }
  }

  lemma {:induction false} ValueOfZeros(k: nat, s: seq<Byte>)
    requires AllDigits(s)
    ensures Value(Repeat(48, k) + s) == Value(s)
    decreases |s|, k
  {
    var z := Repeat(48, k);
    if s == [] {
      assert z + s == z;
      if k > 0 {
        assert z[..k - 1] == Repeat(48, k - 1) + [];
        ValueOfZeros(k - 1, []);
      }
    } else {
      assert (z + s)[..|z + s| - 1] == z + s[..|s| - 1];
      ValueOfZeros(k, s[..|s| - 1]);
    }
  }

  lemma {:induction false} ValueAppend(a: seq<Byte>, b: seq<Byte>)
    requires AllDigits(a) && AllDigits(b)
    ensures Value(a + b) == Joined(Value(a), |b|, Value(b))
    decreases |b|
  {
    if b == [] {
      assert a + b == a;
    } else {
      var init := b[..|b| - 1];
      assert (a + b)[..|a + b| - 1] == a + init;
      ValueAppend(a, init);
      JoinedNext(Value(a), |init|, Value(init), b[|init|] - 48);
    }
  }

  lemma JoinedNext(a: nat, k: nat, b: nat, digit: nat)
    ensures Joined(a, k, b) * 8 + digit == Joined(a, k + 1, b * 8 + digit)
  {
    var p := Pow8(k);
    assert Pow8(k + 1) == 8 * p;
    assert a * (8 * p) == a * p * 8;
  }

  /** The first k digits denote the number without its last digits. */
  lemma {:induction false} LeadingDigits(n: nat, k: nat)
    requires 1 <= k <= |Digits(n)|
    ensures Value(Digits(n)[..k]) == Leading(n, |Digits(n)| - k)
  {
    hide Value;
    var d := Digits(n);
    if k == |d| {
      assert d[..k] == d;
      ValueOfDigits(n);
    } else {
      LeadingDigits(n / 8, k);
      assert d[..k] == Digits(n / 8)[..k];
    }
  }

  /** It is the quotient by 8^k. */
  lemma {:induction false} LeadingIsQuotient(n: nat, k: nat)
    ensures Joined(Leading(n, k), k, 0) <= n < Joined(Leading(n, k) + 1, k, 0)
  {
    hide Joined;
    if k == 0 {
      JoinedNone(n);
      JoinedNone(n + 1);
    } else {
      LeadingIsQuotient(n / 8, k - 1);
      JoinedNext(Leading(n, k), k - 1, 0, 0);
      JoinedNext(Leading(n, k) + 1, k - 1, 0, 0);
    }
  }

  lemma JoinedNone(a: nat)
    ensures Joined(a, 0, 0) == a
  {
    assert Pow8(0) == 1;
  }

  /** A number has at most k octal digits exactly when it is below 8^k. */
  lemma {:induction false} DigitsLength(n: nat, k: nat)
    requires k > 0
    ensures |Digits(n)| <= k <==> n < Pow8(k)
  {
    if k == 1 {
      assert Pow8(1) == 8 * Pow8(0) && Pow8(0) == 1;
    } else if n >= 8 {
      DigitsLength(n / 8, k - 1);
    } else {
      PowAtLeast(k);
    }
  }

  lemma {:induction false} PowAtLeast(k: nat)
    requires k > 0
    ensures Pow8(k) >= 8
  {
    if k == 1 { assert Pow8(0) == 1; } else { PowAtLeast(k - 1); }
  }

  lemma {:induction false} ValueBelow(s: seq<Byte>)
    requires AllDigits(s)
    ensures Value(s) < Pow8(|s|)
  {
    if s != [] { ValueBelow(s[..|s| - 1]); }
  }

  lemma {:induction false} PowMonotone(j: nat, k: nat)
    requires j <= k
    ensures Pow8(j) <= Pow8(k)
  {
    if j < k { PowMonotone(j, k - 1); }
  }

  lemma {:induction false} TakeAllDigits(d: seq<Byte>)
    requires AllDigits(d)
    ensures TakeDigits(d) == d
  {
    if d != [] {
      TakeAllDigits(d[1..]);
    }
  }

  lemma ScanAllDigits(d: seq<Byte>)
    requires d != [] && AllDigits(d) && Value(d) < TWO_64
    ensures Scan(d) == Some(Value(d) % U32)
  {
    hide Value, TakeDigits;
    assert IsDigit(d[0]);
    TakeAllDigits(d);
    assert SkipSpace(d) == d;
  }

  /** Scanning a printed number, padded or not, gives it back. */
  lemma ScanPrinted(n: nat, width: nat)
    requires n < U32
    ensures Scan(PaddedDigits(n, width)) == Some(n)
    ensures Scan(Digits(n)) == Some(n)
  {
    hide Value, Scan;
    var d := Digits(n);
    ValueOfDigits(n);
    ScanAllDigits(d);
    var k := if |d| < width then width - |d| else 0;
    ValueOfZeros(k, d);
    ScanAllDigits(Repeat(48, k) + d);
  }
}
