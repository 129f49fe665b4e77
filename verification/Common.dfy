/** What several modules share. */
module Common {

  const U32: int := 0x1_0000_0000
  const TWO_64: int := 0x1_0000_0000_0000_0000

  datatype Option<T> = None | Some(value: T)

  function One(b: bool): nat { if b then 1 else 0 }

  function Min(a: real, b: real): real { if b < a then b else a }

  function Max(a: real, b: real): real { if a < b then b else a }

  function Upto(from: nat, end: nat): (r: seq<nat>)
    requires from <= end
    ensures |r| == end - from && forall i :: 0 <= i < |r| ==> r[i] == from + i
  {
    seq(end - from, i requires 0 <= i => from + i)
  }

  function Count(s: seq<nat>, k: nat): nat {
    if s == [] then 0 else Count(s[..|s| - 1], k) + One(s[|s| - 1] == k)
  }

  lemma CountAppend(s: seq<nat>, x: nat, k: nat)
    ensures Count(s + [x], k) == Count(s, k) + One(x == k)
  {
    assert (s + [x])[..|s|] == s;
  }

  lemma {:induction false} CountHead(s: seq<nat>, k: nat)
    requires s != []
    ensures Count(s, k) == One(s[0] == k) + Count(s[1..], k)
  {
    if |s| > 1 {
      CountHead(s[..|s| - 1], k);
      assert s[..|s| - 1][1..] == s[1..][..|s| - 2];
    }
  }

  lemma {:induction false} CountIn(s: seq<nat>, k: nat)
    ensures k in s <==> Count(s, k) > 0
  {
    if s != [] {
      CountIn(s[..|s| - 1], k);
      assert s == s[..|s| - 1] + [s[|s| - 1]];
    }
  }

  function Flatten<T>(pieces: seq<seq<T>>): seq<T> {
    if pieces == [] then [] else pieces[0] + Flatten(pieces[1..])
  }

  lemma {:induction false} FlattenAppend<T>(a: seq<seq<T>>, b: seq<seq<T>>)
    ensures Flatten(a + b) == Flatten(a) + Flatten(b)
  {
    if a == [] {
      assert a + b == b;
      Assoc(Flatten(b), [], []);
    } else {
      assert (a + b)[1..] == a[1..] + b;
      FlattenAppend(a[1..], b);
      Assoc(a[0], Flatten(a[1..]), Flatten(b));
    }
  }

  lemma Assoc<T>(a: seq<T>, b: seq<T>, c: seq<T>)
    ensures a + (b + c) == a + b + c
    ensures [] + a == a == a + []
  {
  }
}
