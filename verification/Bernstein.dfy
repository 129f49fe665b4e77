/** manif's interpolation.h over exact integers and reals: binomial_coefficient, ipow and the
    Bernstein polynomials built on them. */
module Bernstein {

  import opened Common

  /** `binomial_coefficient`; None is the logic_error it throws. */
  function BinomialCoefficient(n: int, k: int): Option<int>
    decreases k
  {
    if n < k || k < 0 then None
    else if k * 2 > n then BinomialCoefficient(n, n - k)
    else if k == 0 then Some(1)
    else
      var c := BinomialCoefficient(n, k - 1);
      if c.None? then None else Some(Step(c.value, n, k))
  }

  function Step(c: int, n: int, k: int): int
    requires k > 0
  {
    c * (n - k + 1) / k
  }

  /** `ipow` */
  function IPow(base: real, exp: int, carry: real): real
    decreases exp
  {
    if exp < 1 then carry else IPow(base * base, exp / 2, if exp % 2 != 0 then carry * base else carry)
  }

  /** `polynomialBernstein` */
  function PolynomialBernstein(n: int, i: int, t: real): Option<real> {
    var c := BinomialCoefficient(n, i);
    if c.None? then None
    else Some(Product(c.value, IPow(1.0 - t, n - i, 1.0), IPow(t, i, 1.0)))
  }

  function Product(c: int, x: real, y: real): real { c as real * x * y }

  // ---------------------------------------------------------------- references

  /** Pascal's triangle. */
  function Choose(n: nat, k: nat): (c: nat)
    requires k <= n
    ensures c >= 1
  {
    if k == 0 || k == n then 1 else Choose(n - 1, k - 1) + Choose(n - 1, k)
  }

  function Pow(base: real, exp: nat): real {
    if exp == 0 then 1.0 else base * Pow(base, exp - 1)
  }

  // ---------------------------------------------------------------- binomial_coefficient

  lemma {:induction false} Absorption(n: nat, k: nat)
    requires 1 <= k <= n
    ensures k * Choose(n, k) == n * Choose(n - 1, k - 1)
    ensures (n - k + 1) * Choose(n, k - 1) == n * Choose(n - 1, k - 1)
  {
    var c := Choose(n - 1, k - 1);
    Gather(n, k, c);
    if k < n {
      Absorption(n - 1, k);
      Distribute(k, c, Choose(n - 1, k));
    }
    if k > 1 {
      Absorption(n - 1, k - 1);
      Distribute(n - k + 1, Choose(n - 1, k - 2), c);
    }
  }

  lemma Distribute(k: int, a: int, b: int)
    ensures k * (a + b) == k * a + k * b
  {
  }

  lemma Gather(n: int, k: int, c: int)
    ensures k * c + (n - k) * c == n * c && (k - 1) * c + (n - k + 1) * c == n * c
  {
  }

  lemma {:induction false} Symmetry(n: nat, k: nat)
    requires k <= n
    ensures Choose(n, k) == Choose(n, n - k)
  {
    if 0 < k < n {
      Symmetry(n - 1, k - 1);
      Symmetry(n - 1, k);
    }
  }

  /** The division of a step is exact, and takes Pascal's entry to the next of its row. */
  lemma StepIsExact(n: nat, k: nat)
    requires 1 <= k <= n
    ensures Choose(n, k - 1) * (n - k + 1) % k == 0
    ensures Step(Choose(n, k - 1), n, k) == Choose(n, k)
  {
    Absorption(n, k);
    ExactQuotient(Choose(n, k - 1) * (n - k + 1), Choose(n, k), k);
  }

  lemma ExactQuotient(a: int, b: int, k: int)
    requires k > 0 && a == k * b
    ensures a % k == 0 && a / k == b
  {
    MulBound(k, a / k - b);
  }

  lemma MulBound(k: int, d: int)
    requires k > 0
    ensures d >= 1 ==> k * d >= k
    ensures d <= -1 ==> k * d <= -k
  {
  }

  lemma ChooseZero(n: nat)
    ensures Choose(n, 0) == 1
  {
  }

  /** The recursion ends despite its reflection, and its value is the entry of Pascal's triangle. */
  lemma {:induction false} BinomialIsChoose(n: nat, k: nat)
    requires k <= n
    ensures BinomialCoefficient(n, k) == Some(Choose(n, k))
    decreases k
  {
    hide Choose, Step;
    if k * 2 > n {
      BinomialIsChoose(n, n - k);
      Symmetry(n, k);
    } else if k == 0 {
      ChooseZero(n);
    } else {
      BinomialIsChoose(n, k - 1);
      StepIsExact(n, k);
    }
  }

  /** It throws exactly outside the triangle. */
  lemma BinomialThrowsIff(n: int, k: int)
    ensures BinomialCoefficient(n, k).None? <==> k < 0 || n < k
  {
    if 0 <= k <= n { BinomialIsChoose(n, k); }
  }

  // ---------------------------------------------------------------- ipow

  lemma {:induction false} PowSquare(b: real, e: nat)
    ensures Pow(b * b, e) == Pow(b, 2 * e)
  {
    if e > 0 {
      PowSquare(b, e - 1);
      assert Pow(b, 2 * e) == b * (b * Pow(b, 2 * e - 2));
      var p := Pow(b, 2 * e - 2);
      assert b * (b * p) == b * b * p;
    }
  }

  /** Squaring computes the power; a negative exponent counts as zero. */
  lemma {:induction false} IPowIsPow(base: real, exp: int, carry: real)
    ensures IPow(base, exp, carry) == carry * Pow(base, if exp < 0 then 0 else exp)
    decreases exp
  {
    if exp >= 1 {
      var h := exp / 2;
      IPowIsPow(base * base, h, if exp % 2 != 0 then carry * base else carry);
      PowSquare(base, h);
      var p := Pow(base, 2 * h);
      if exp % 2 != 0 {
        assert exp == 2 * h + 1 && Pow(base, exp) == base * p;
        assert carry * base * p == carry * (base * p);
      } else {
        assert exp == 2 * h;
      }
    }
  }

  // ---------------------------------------------------------------- Bernstein polynomials

  /** The closed form. */
  function B(n: nat, i: nat, t: real): real
    requires i <= n
  {
    Product(Choose(n, i), Pow(1.0 - t, n - i), Pow(t, i))
  }

  lemma PolynomialIsClosedForm(n: nat, i: nat, t: real)
    requires i <= n
    ensures PolynomialBernstein(n, i, t) == Some(B(n, i, t))
  {
    hide Product;
    BinomialIsChoose(n, i);
    IPowIsPow(1.0 - t, n - i, 1.0);
    IPowIsPow(t, i, 1.0);
  }

  lemma ProductLaws(a: int, b: int, s: real, t: real, x: real, y: real)
    ensures Product(a + b, x, y) == Product(a, x, y) + Product(b, x, y)
    ensures Product(a, s * x, y) == s * Product(a, x, y)
    ensures Product(a, x, t * y) == t * Product(a, x, y)
  {
    var c, d := a as real, b as real;
    assert (c + d) * x * y == c * x * y + d * x * y;
    assert c * (s * x) * y == s * (c * x * y);
    assert c * x * (t * y) == t * (c * x * y);
  }

  lemma TopTerm(n: nat, t: real)
    ensures B(n, n, t) == Product(1, 1.0, Pow(t, n))
  {
    hide Product;
    assert Pow(1.0 - t, n - n) == 1.0;
  }

  lemma TopRecurrence(n: nat, t: real)
    requires 0 < n
    ensures B(n, n, t) == t * B(n - 1, n - 1, t)
  {
    hide Product, B;
    TopTerm(n, t);
    TopTerm(n - 1, t);
    var y, z := Pow(t, n - 1), Pow(t, n);
    ProductLaws(1, 0, 0.0, t, 1.0, y);
    assert z == t * y;
    assert B(n, n, t) == Product(1, 1.0, z) == Product(1, 1.0, t * y);
  }

  lemma BottomRecurrence(n: nat, t: real)
    requires 0 < n
    ensures B(n, 0, t) == (1.0 - t) * B(n - 1, 0, t)
  {
    hide Product;
    var s := 1.0 - t;
    var x, z := Pow(s, n - 1), Pow(s, n);
    ProductLaws(1, 0, s, t, x, 1.0);
    assert z == s * x;
    assert B(n, 0, t) == Product(1, z, 1.0) == Product(1, s * x, 1.0);
    assert B(n - 1, 0, t) == Product(1, x, 1.0);
  }

  lemma Recurrence(n: nat, i: nat, t: real)
    requires i <= n && 0 < n
    ensures B(n, i, t) == (if i < n then (1.0 - t) * B(n - 1, i, t) else 0.0)
                          + (if i > 0 then t * B(n - 1, i - 1, t) else 0.0)
  {
    hide Product;
    var s := 1.0 - t;
    if i == 0 {
      BottomRecurrence(n, t);
    } else if i == n {
      TopRecurrence(n, t);
    } else {
      var a, b := Choose(n - 1, i), Choose(n - 1, i - 1);
      var p, q := Pow(s, n - i - 1), Pow(t, i - 1);
      assert Pow(s, n - i) == s * p && Pow(t, i) == t * q;
      ProductLaws(a, b, s, t, s * p, t * q);
      ProductLaws(a, 0, s, t, p, t * q);
      ProductLaws(b, 0, s, t, s * p, q);
    }
  }

  function Times(a: real, b: real): real { a * b }

  /** B(n, 0) q[0] + ... + B(n, m - 1) q[m - 1]. */
  function Weighted(n: nat, t: real, q: seq<real>, m: nat): real
    requires m <= n + 1 && m <= |q|
  {
    if m == 0 then 0.0 else Weighted(n, t, q, m - 1) + Times(B(n, m - 1, t), q[m - 1])
  }

  /** The Bernstein combination of all of q. */
  function Combination(t: real, q: seq<real>): real
    requires q != []
  {
    Weighted(|q| - 1, t, q, |q|)
  }

  /** One round of de Casteljau's reduction: each two neighbours are blended. */
  function Blend(q: seq<real>, t: real): (r: seq<real>)
    requires q != []
    ensures |r| == |q| - 1
  {
    seq(|q| - 1, i requires 0 <= i < |q| - 1 => q[i] + Times(q[i + 1] - q[i], t))
  }

  lemma BlendStep(blended: real, plain: real, a: real, b: real, c: real, t: real, x: real, y: real, z: real)
    requires blended == plain + Times(Times(t, a), x)
    requires c == Times(1.0 - t, b) + Times(t, a) && z == x + Times(y - x, t)
    ensures blended + Times(b, z) == plain + Times(c, x) + Times(Times(t, b), y)
  {
    assert b * z == (1.0 - t) * b * x + t * b * y;
    assert c * x == (1.0 - t) * b * x + t * a * x;
  }

  /** The term of the recurrence that the partial sum carries. */
  function Carry(n: nat, m: nat, t: real): real
    requires m <= n + 1
  {
    if m == 0 then 0.0 else B(n, m - 1, t)
  }

  lemma CarryRecurrence(n: nat, m: nat, t: real)
    requires m < n
    ensures B(n, m, t) == Times(1.0 - t, B(n - 1, m, t)) + Times(t, Carry(n - 1, m, t))
  {
    hide B;
    Recurrence(n, m, t);
  }

  lemma CarryTop(n: nat, t: real)
    requires 0 < n
    ensures B(n, n, t) == Times(t, Carry(n - 1, n, t))
  {
    hide B;
    TopRecurrence(n, t);
  }

  /** Weighting the blended points with degree n - 1 is weighting the points with degree n, up
      to the term the partial sum has not reached. */
  lemma {:induction false} BlendPartial(n: nat, m: nat, t: real, q: seq<real>)
    requires m <= n && |q| == n + 1 && 0 < n
    ensures Weighted(n - 1, t, Blend(q, t), m) == Weighted(n, t, q, m) + Times(Times(t, Carry(n - 1, m, t)), q[m])
  {
    hide B, Times;
    if m == 0 {
      TimesZero(t, q[0]);
    } else {
      var r, k := Blend(q, t), m - 1;
      BlendPartial(n, k, t, q);
      CarryRecurrence(n, k, t);
      BlendStep(Weighted(n - 1, t, r, k), Weighted(n, t, q, k), Carry(n - 1, k, t), B(n - 1, k, t), B(n, k, t),
                t, q[k], q[m], r[k]);
    }
  }

  lemma TimesZero(t: real, x: real)
    ensures Times(Times(t, 0.0), x) == 0.0
  {
  }

  /** One round of the reduction leaves the Bernstein combination unchanged. */
  lemma BlendKeepsCombination(t: real, q: seq<real>)
    requires |q| > 1
    ensures Combination(t, Blend(q, t)) == Combination(t, q)
  {
    hide B, Times;
    var n := |q| - 1;
    BlendPartial(n, n, t, q);
    CarryTop(n, t);
  }

  function Ones(n: nat): (q: seq<real>)
    ensures |q| == n
  {
    seq(n, _ => 1.0)
  }

  /** The polynomials of any degree n sum to one, everywhere. */
  lemma {:induction false} PartitionOfUnity(n: nat, t: real)
    ensures Combination(t, Ones(n + 1)) == 1.0
  {
    if n == 0 {
      assert Weighted(0, t, Ones(1), 1) == Weighted(0, t, Ones(1), 0) + B(0, 0, t) * 1.0;
    } else {
      PartitionOfUnity(n - 1, t);
      BlendKeepsCombination(t, Ones(n + 1));
      assert Blend(Ones(n + 1), t) == Ones(n);
    }
  }
}
