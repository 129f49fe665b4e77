/** manif's decasteljau on the vector group, where rplus is addition and rminus subtraction, with
    exact reals.  Counts are unsigned 32-bit numbers and wrap as such. */
module DeCasteljau {
  import opened Bernstein
  import opened Common

  /** A point of the group: its coordinates. */
  type Vector = seq<real>

  function Plus(a: Vector, b: Vector): Vector
    requires |a| == |b|
  {
    seq(|a|, i requires 0 <= i < |a| => a[i] + b[i])
  }

  function Minus(a: Vector, b: Vector): Vector
    requires |a| == |b|
  {
    seq(|a|, i requires 0 <= i < |a| => a[i] - b[i])
  }

  function Scale(a: Vector, t: real): Vector {
    seq(|a|, i requires 0 <= i < |a| => a[i] * t)
  }

  /** All points have `dim` coordinates. */
  predicate Uniform(points: seq<Vector>, dim: nat) {
    forall i :: 0 <= i < |points| ==> |points[i]| == dim
  }

  /** The coordinates `c` of the points. */
  function Coordinate(points: seq<Vector>, dim: nat, c: nat): (q: seq<real>)
    requires Uniform(points, dim) && c < dim
    ensures |q| == |points|
  {
    seq(|points|, i requires 0 <= i < |points| => points[i][c])
  }

  /** The point of the Bezier curve with these control points: in every coordinate the Bernstein
      combination of theirs.  This is what the fitting is meant to compute. */
  ghost predicate IsBezierPoint(p: Vector, points: seq<Vector>, dim: nat, t: real) {
    && points != [] && Uniform(points, dim) && |p| == dim
    && forall c :: 0 <= c < dim ==> p[c] == Combination(t, Coordinate(points, dim, c))
  }

  /** The number of control points advances by degree - 1 from one segment to the next ... */
  function ControlPoints(trajectory: seq<Vector>, degree: nat, s: nat): seq<Vector>
    requires degree >= 1 && s * (degree - 1) + degree <= |trajectory|
  {
    trajectory[s * (degree - 1)..s * (degree - 1) + degree]
  }

  /** ... but the number of segments is counted with stride degree. */
  function Segments(points: nat, degree: nat): nat
    requires 1 <= degree <= points
  {
    (points - degree) / ((degree - 1) + 1)
  }

  function SamplesPerSegment(degree: nat, kInterp: nat): nat {
    if degree == 2 then kInterp else (kInterp * degree) % U32
  }

  /** At degree 2 there are as many samples as asked for.  At any other the product is their number
      exactly when 32 bits hold it, and otherwise its last 32 bits are.  65536 samples at degree 65536
      make none at all, and a number and a degree of the product 2^32 - 1 make a loop without end. */
  lemma SamplesExactIff(degree: nat, kInterp: nat)
    ensures degree == 2 ==> SamplesPerSegment(degree, kInterp) == kInterp
    ensures degree != 2 ==> (SamplesPerSegment(degree, kInterp) == kInterp * degree <==> kInterp * degree < U32)
    ensures degree != 2 ==> (kInterp * degree - SamplesPerSegment(degree, kInterp)) % U32 == 0
                            && SamplesPerSegment(degree, kInterp) < U32
    ensures SamplesPerSegment(65536, 65536) == 0 && SamplesPerSegment(65535, 65537) == U32 - 1
  {
  }

  /** Every control point of every segment exists. */
  lemma ControlPointsInBounds(points: nat, degree: nat, s: nat)
    requires 1 <= degree <= points && s < Segments(points, degree)
    ensures s * (degree - 1) + degree <= points
  {
    var n := Segments(points, degree);
    assert n * degree <= points - degree;
    assert s * (degree - 1) <= s * degree;
    MulMono(s, n, degree);
  }

  lemma MulMono(a: nat, b: nat, k: nat)
    requires a <= b
    ensures a * k <= b * k
  {
  }

  /** So the shortest admissible trajectories, and all below twice the degree, give no curve. */
  lemma NoSegmentsIff(points: nat, degree: nat)
    requires 1 <= degree <= points
    ensures Segments(points, degree) == 0 <==> points < 2 * degree
  {
  }

  /** The number of segments is the number of whole strides behind the first degree points. */
  lemma SegmentsAre(points: nat, degree: nat)
    requires 1 <= degree <= points
    ensures var n := Segments(points, degree); n * degree <= points - degree < (n + 1) * degree
  {
    var n := Segments(points, degree);
    assert points - degree == n * degree + (points - degree) % degree;
    assert (n + 1) * degree == n * degree + degree;
  }

  /** The points of the trajectory behind the last segment.  Counting with one stride and laying with
      another always leaves some: at least degree - 1. */
  function LeftOver(points: nat, degree: nat): (n: nat)
    requires 1 <= degree <= points
    ensures n == degree - 1 + Segments(points, degree) + (points - degree) % degree
  {
    LeftOverIs(points, degree);
    points - 1 - Segments(points, degree) * (degree - 1)
  }

  lemma LeftOverIs(points: nat, degree: nat)
    requires 1 <= degree <= points
    ensures var q := Segments(points, degree);
            points - 1 - q * (degree - 1) == degree - 1 + q + (points - degree) % degree
  {
    var q, r := Segments(points, degree), (points - degree) % degree;
    assert points - degree == q * degree + r;
    assert q * (degree - 1) == q * degree - q;
  }

  /** How many points the closing segment takes from the front, in unsigned 32-bit arithmetic. */
  function ExtraPoints(points: nat, degree: nat): nat
    requires 1 <= degree <= points
  {
    (degree - LeftOver(points, degree) - 1) % U32
  }

  /** The count stays within the trajectory exactly when the trajectory has as many points as the
      degree; then it is zero.  For every longer trajectory the subtraction goes below zero. */
  lemma ClosingIsDefinedIff(points: nat, degree: nat)
    requires 1 <= degree <= points < U32 / 2
    ensures ExtraPoints(points, degree) <= points <==> points == degree
    ensures points == degree ==> ExtraPoints(points, degree) == 0 && Segments(points, degree) == 0
  {
    var q, r := Segments(points, degree), (points - degree) % degree;
    SegmentsBelow(points, degree);
    assert degree - LeftOver(points, degree) - 1 == 0 - (q + r);
    ModOfNegative(q + r);
  }

  lemma SegmentsBelow(points: nat, degree: nat)
    requires 1 <= degree <= points
    ensures var q, r := Segments(points, degree), (points - degree) % degree;
            q + r <= points - degree && (q + r == 0 <==> points == degree)
  {
    var q, r := Segments(points, degree), (points - degree) % degree;
    assert points - degree == q * degree + r;
    MulMono(1, degree, q);
  }

  lemma ModOfNegative(n: nat)
    requires n < U32
    ensures (0 - n) % U32 == if n == 0 then 0 else U32 - n
  {
  }

  // ---------------------------------------------------------------- one sample

  function Blended(a: Vector, b: Vector, t: real): (v: Vector)
    requires |a| == |b|
    ensures |v| == |a|
  {
    Plus(a, Scale(Minus(b, a), t))
  }

  /** One round of the reduction. */
  function Round(q: seq<Vector>, dim: nat, t: real): (r: seq<Vector>)
    requires q != [] && Uniform(q, dim)
    ensures |r| == |q| - 1 && Uniform(r, dim)
  {
    seq(|q| - 1, i requires 0 <= i < |q| - 1 => Blended(q[i], q[i + 1], t))
  }

  lemma RoundIsBlend(q: seq<Vector>, dim: nat, t: real, c: nat)
    requires q != [] && Uniform(q, dim) && c < dim
    ensures Coordinate(Round(q, dim, t), dim, c) == Blend(Coordinate(q, dim, c), t)
  {
    hide Blended, Times;
    var r, b, x := Coordinate(Round(q, dim, t), dim, c), Blend(Coordinate(q, dim, c), t), Coordinate(q, dim, c);
    forall i | 0 <= i < |q| - 1 ensures r[i] == b[i] {
      BlendedAt(q[i], q[i + 1], t, c);
      assert r[i] == Blended(q[i], q[i + 1], t)[c];
      assert x[i] == q[i][c] && x[i + 1] == q[i + 1][c];
    }
  }

  lemma BlendedAt(a: Vector, b: Vector, t: real, c: nat)
    requires |a| == |b| && c < |a|
    ensures Blended(a, b, t)[c] == a[c] + Times(b[c] - a[c], t)
  {
  }

  /** A round does not change which point the control points define. */
  lemma RoundKeepsPoint(q: seq<Vector>, dim: nat, t: real, p: Vector)
    requires |q| > 1 && Uniform(q, dim)
    ensures IsBezierPoint(p, Round(q, dim, t), dim, t) <==> IsBezierPoint(p, q, dim, t)
  {
    hide Combination, Round, Coordinate;
    forall c | 0 <= c < dim
      ensures Combination(t, Coordinate(Round(q, dim, t), dim, c)) == Combination(t, Coordinate(q, dim, c))
    {
      RoundIsBlend(q, dim, t, c);
      BlendKeepsCombination(t, Coordinate(q, dim, c));
    }
  }

  /** The `j`-th sample from `start` on is the Bezier point at (j + 1) / samples. */
  ghost predicate SampleAt(curve: seq<Vector>, start: nat, points: seq<Vector>, dim: nat, samples: nat, j: nat)
    requires samples > 0
  {
    start + j < |curve| && IsBezierPoint(curve[start + j], points, dim, (j + 1) as real / samples as real)
  }

  lemma SinglePoint(p: Vector, dim: nat, t: real)
    requires |p| == dim
    ensures IsBezierPoint(p, [p], dim, t)
  {
    forall c | 0 <= c < dim ensures p[c] == Combination(t, Coordinate([p], dim, c)) {
      assert Weighted(0, t, Coordinate([p], dim, c), 1)
          == Weighted(0, t, Coordinate([p], dim, c), 0) + B(0, 0, t) * p[c];
    }
  }

  /** The triangular reduction of one sample. */
  method Sample(points: seq<Vector>, degree: nat, t: real, ghost dim: nat) returns (p: Vector)
    requires |points| == degree && degree >= 1 && Uniform(points, dim)
    ensures IsBezierPoint(p, points, dim, t)
  {
    hide IsBezierPoint, Combination;
    var qs := points;
    for i := 0 to degree - 1
      invariant |qs| == degree - i && Uniform(qs, dim)
      invariant forall v :: IsBezierPoint(v, qs, dim, t) ==> IsBezierPoint(v, points, dim, t)
    {
      var tmp: seq<Vector> := [];
      for q := 0 to |qs| - 1
        invariant tmp == Round(qs, dim, t)[..q]
      {
        assert |qs[q]| == |qs[q + 1]|;
        tmp := tmp + [Plus(qs[q], Scale(Minus(qs[q + 1], qs[q]), t))];
      }
      assert tmp == Round(qs, dim, t);
      forall v ensures IsBezierPoint(v, tmp, dim, t) ==> IsBezierPoint(v, qs, dim, t) {
        RoundKeepsPoint(qs, dim, t, v);
      }
      qs := tmp;
    }
    SinglePoint(qs[0], dim, t);
    assert qs == [qs[0]];
    p := qs[0];
  }

  // ---------------------------------------------------------------- the curve

  /** Sample `j` of segment `s` is the Bezier point of its control points at (j + 1) / samples. */
  ghost predicate IsCurve(curve: seq<Vector>, trajectory: seq<Vector>, dim: nat, degree: nat, samples: nat,
                          segments: nat)
    requires 1 <= degree <= |trajectory| && segments <= Segments(|trajectory|, degree)
  {
    && |curve| == segments * samples
    && forall s, j :: 0 <= s < segments && 0 <= j < samples ==>
         IsSample(curve, trajectory, dim, degree, samples, s, j)
  }

  ghost predicate IsSample(curve: seq<Vector>, trajectory: seq<Vector>, dim: nat, degree: nat, samples: nat,
                           s: nat, j: nat)
    requires 1 <= degree <= |trajectory| && s < Segments(|trajectory|, degree) && samples > 0
  {
    ControlPointsInBounds(|trajectory|, degree, s);
    SampleAt(curve, s * samples, ControlPoints(trajectory, degree, s), dim, samples, j)
  }

  /** The inner loop over one segment's control points. */
  method Gather(trajectory: seq<Vector>, from: nat, degree: nat) returns (points: seq<Vector>)
    requires from + degree <= |trajectory|
    ensures points == trajectory[from..from + degree]
  {
    points := [];
    for n := 0 to degree
      invariant points == trajectory[from..from + n]
    {
      points := points + [trajectory[from + n]];
    }
  }

  lemma SliceIsControl(trajectory: seq<Vector>, degree: nat, s: nat)
    requires 1 <= degree && s * (degree - 1) + degree <= |trajectory|
    ensures IsControl(trajectory[s * (degree - 1)..s * (degree - 1) + degree], trajectory, degree, s)
  {
  }

  /** The control points of every segment. */
  method Extract(trajectory: seq<Vector>, degree: nat) returns (control: seq<seq<Vector>>)
    requires 1 <= degree <= |trajectory|
    ensures |control| == Segments(|trajectory|, degree)
    ensures forall s :: 0 <= s < |control| ==> IsControl(control[s], trajectory, degree, s)
  {
    hide Segments, IsControl;
    var segments := Segments(|trajectory|, degree);
    control := [];
    for t := 0 to segments
      invariant |control| == t
      invariant forall s :: 0 <= s < t ==> IsControl(control[s], trajectory, degree, s)
    {
      ControlPointsInBounds(|trajectory|, degree, t);
      var points := Gather(trajectory, t * (degree - 1), degree);
      SliceIsControl(trajectory, degree, t);
      control := control + [points];
    }
  }

  /** The samples of one segment appended to the curve. */
  method SampleSegment(curve: seq<Vector>, points: seq<Vector>, degree: nat, samples: nat, ghost dim: nat)
    returns (longer: seq<Vector>)
    requires |points| == degree >= 1 && Uniform(points, dim)
    ensures |longer| == |curve| + samples && curve <= longer
    ensures forall j :: 0 <= j < samples ==> SampleAt(longer, |curve|, points, dim, samples, j)
  {
    hide IsBezierPoint;
    longer := curve;
    for t := 1 to samples + 1
      invariant |longer| == |curve| + t - 1 && curve <= longer
      invariant forall j :: 0 <= j < t - 1 ==> SampleAt(longer, |curve|, points, dim, samples, j)
    {
      var p := Sample(points, degree, t as real / samples as real, dim);
      ghost var before := longer;
      longer := longer + [p];
      forall j | 0 <= j < t - 1 ensures SampleAt(longer, |curve|, points, dim, samples, j) {
        assert SampleAt(before, |curve|, points, dim, samples, j);
      }
    }
  }

  /** What `decasteljau` comes to: one of its checks throws, or the closing segment indexes past the
      end of the trajectory, or no sample number exceeds the bound of the sampling loop, or there is a
      curve. */
  datatype Outcome = Refused | RunsOff | Endless | Curve(curve: seq<Vector>)

  /** The left-over points, and then points from the front; None when these run off the end. */
  method Close(trajectory: seq<Vector>, degree: nat, segments: nat) returns (points: Option<seq<Vector>>)
    requires 1 <= degree <= |trajectory| && segments == Segments(|trajectory|, degree)
    ensures points.None? <==> ExtraPoints(|trajectory|, degree) > |trajectory|
    ensures points.Some? ==>
              var n := LeftOver(|trajectory|, degree);
              && n < |trajectory|
              && points.value == trajectory[|trajectory| - 1 - n..] + trajectory[..ExtraPoints(|trajectory|, degree)]
  {
    hide Segments, LeftOver;
    LastIndex(|trajectory|, degree);
    var last := segments * (degree - 1);
    var leftOver := |trajectory| - 1 - last;
    var gathered := trajectory[last..];
    var extra := (degree - leftOver - 1) % U32;
    assert extra == ExtraPoints(|trajectory|, degree);
    points := CopyFront(trajectory, gathered, extra);
  }

  lemma LastIndex(points: nat, degree: nat)
    requires 1 <= degree <= points
    ensures Segments(points, degree) * (degree - 1) + LeftOver(points, degree) + 1 == points
    ensures Segments(points, degree) * (degree - 1) >= 0
  {
    LeftOverIs(points, degree);
  }

  /** The loop that appends points from the front. */
  method CopyFront(trajectory: seq<Vector>, start: seq<Vector>, extra: nat) returns (points: Option<seq<Vector>>)
    ensures points == if extra > |trajectory| then None else Some(start + trajectory[..extra])
  {
    var gathered := start;
    for p := 0 to extra
      invariant p <= |trajectory| && gathered == start + trajectory[..p]
    {
      if p == |trajectory| {
        return None;
      }
      gathered := gathered + [trajectory[p]];
    }
    points := Some(gathered);
  }

  /** `decasteljau`.  A degree of zero divides by zero. */
  method Fit(trajectory: seq<Vector>, degree: nat, kInterp: nat, closed: bool, ghost dim: nat) returns (r: Outcome)
    requires Uniform(trajectory, dim) && degree >= 1 && |trajectory| < U32 / 2
    ensures r.Refused? <==> |trajectory| <= 2 || degree > |trajectory| || kInterp == 0
    ensures !r.Refused? ==> (r.RunsOff? <==> closed && |trajectory| != degree)
    ensures !r.Refused? && !r.RunsOff? ==>
              (r.Endless? <==> && SamplesPerSegment(degree, kInterp) == U32 - 1
                               && (closed || |trajectory| >= 2 * degree))
    ensures r.Curve? && !closed ==>
              IsCurve(r.curve, trajectory, dim, degree, SamplesPerSegment(degree, kInterp),
                      Segments(|trajectory|, degree))
    ensures r.Curve? && closed ==>
              IsOneSegment(r.curve, trajectory, dim, SamplesPerSegment(degree, kInterp))
    ensures r.Curve? && degree == 2 ==>
              if closed then IsOneSegment(r.curve, trajectory, dim, kInterp)
              else IsCurve(r.curve, trajectory, dim, 2, kInterp, Segments(|trajectory|, 2))
    ensures r.Curve? && degree != 2 && kInterp * degree < U32 ==>
              if closed then IsOneSegment(r.curve, trajectory, dim, kInterp * degree)
              else IsCurve(r.curve, trajectory, dim, degree, kInterp * degree, Segments(|trajectory|, degree))
  {
    if |trajectory| <= 2 || degree > |trajectory| || kInterp == 0 {
      return Refused;
    }
    hide IsBezierPoint, IsSample, IsControl, SamplesPerSegment, Segments, ExtraPoints, LeftOver, SampleAt;
    var control := Extract(trajectory, degree);
    var samples := SamplesPerSegment(degree, kInterp);
    NoSegmentsIff(|trajectory|, degree);
    SamplesExactIff(degree, kInterp);
    if closed {
      ClosingIsDefinedIff(|trajectory|, degree);
      var closing := Close(trajectory, degree, |control|);
      if closing.None? {
        return RunsOff;
      }
      assert control == [] && LeftOver(|trajectory|, degree) == |trajectory| - 1;
      assert trajectory[0..] + trajectory[..0] == trajectory;
      control := control + [closing.value];
    }
    if control != [] && samples == U32 - 1 {
      return Endless;
    }
    var out: seq<Vector> := [];
    for s := 0 to |control|
      invariant !closed ==> IsCurve(out, trajectory, dim, degree, samples, s)
      invariant closed ==> if s == 0 then out == [] else IsOneSegment(out, trajectory, dim, samples)
    {
      if !closed { ControlIsUniform(control[s], trajectory, dim, degree, s); }
      ghost var before := out;
      out := SampleSegment(out, control[s], degree, samples, dim);
      if !closed { SegmentAdded(before, out, control[s], trajectory, dim, degree, samples, s); }
    }
    r := Curve(out);
  }

  /** A curve of one segment with all the points of the trajectory for control points. */
  ghost predicate IsOneSegment(curve: seq<Vector>, trajectory: seq<Vector>, dim: nat, samples: nat)
  {
    |curve| == samples && forall j :: 0 <= j < samples ==> SampleAt(curve, 0, trajectory, dim, samples, j)
  }

  lemma ControlIsUniform(points: seq<Vector>, trajectory: seq<Vector>, dim: nat, degree: nat, s: nat)
    requires IsControl(points, trajectory, degree, s) && Uniform(trajectory, dim)
    ensures |points| == degree && Uniform(points, dim)
  {
  }

  lemma SegmentAdded(curve: seq<Vector>, longer: seq<Vector>, points: seq<Vector>, trajectory: seq<Vector>, dim: nat,
                     degree: nat, samples: nat, s: nat)
    requires 1 <= degree <= |trajectory| && s < Segments(|trajectory|, degree)
    requires IsCurve(curve, trajectory, dim, degree, samples, s) && IsControl(points, trajectory, degree, s)
    requires |longer| == |curve| + samples && curve <= longer
    requires forall j :: 0 <= j < samples ==> SampleAt(longer, |curve|, points, dim, samples, j)
    ensures IsCurve(longer, trajectory, dim, degree, samples, s + 1)
  {
    hide IsBezierPoint, Segments, IsSample;
    assert (s + 1) * samples == s * samples + samples;
    forall r, j | 0 <= r < s + 1 && 0 <= j < samples
      ensures IsSample(longer, trajectory, dim, degree, samples, r, j)
    {
      if r < s {
        SampleStays(curve, longer, trajectory, dim, degree, samples, r, j);
      } else {
        SampleAdded(longer, points, trajectory, dim, degree, samples, s, j);
      }
    }
  }

  ghost predicate IsControl(points: seq<Vector>, trajectory: seq<Vector>, degree: nat, s: nat) {
    && 1 <= degree && s * (degree - 1) + degree <= |trajectory|
    && points == ControlPoints(trajectory, degree, s)
  }

  lemma SampleAdded(curve: seq<Vector>, points: seq<Vector>, trajectory: seq<Vector>, dim: nat, degree: nat,
                    samples: nat, s: nat, j: nat)
    requires 1 <= degree <= |trajectory| && s < Segments(|trajectory|, degree) && samples > 0
    requires IsControl(points, trajectory, degree, s)
    requires SampleAt(curve, s * samples, points, dim, samples, j)
    ensures IsSample(curve, trajectory, dim, degree, samples, s, j)
  {
    hide IsBezierPoint, Segments;
  }

  lemma SampleStays(curve: seq<Vector>, longer: seq<Vector>, trajectory: seq<Vector>, dim: nat, degree: nat,
                    samples: nat, s: nat, j: nat)
    requires 1 <= degree <= |trajectory| && s < Segments(|trajectory|, degree) && samples > 0
    requires IsSample(curve, trajectory, dim, degree, samples, s, j) && curve <= longer
    ensures IsSample(longer, trajectory, dim, degree, samples, s, j)
  {
    hide IsBezierPoint;
  }

  // ---------------------------------------------------------------- where the curve passes

  lemma {:induction false} PowOfZero(n: nat)
    ensures Pow(0.0, n) == if n == 0 then 1.0 else 0.0
  {
  }

  lemma {:induction false} PowOfOne(n: nat)
    ensures Pow(1.0, n) == 1.0
  {
    if n > 0 { PowOfOne(n - 1); }
  }

  lemma {:induction false} WeightedAtOne(n: nat, q: seq<real>, m: nat)
    requires m <= n + 1 == |q|
    ensures Weighted(n, 1.0, q, m) == if m == n + 1 then q[n] else 0.0
  {
    if m > 0 {
      WeightedAtOne(n, q, m - 1);
      PowOfZero(n - (m - 1));
      PowOfOne(m - 1);
      if m == n + 1 { assert B(n, n, 1.0) == 1.0; } else { assert B(n, m - 1, 1.0) == 0.0; }
    }
  }

  /** The curve meets the trajectory where segments join: the last sample of segment s is the
      point (s + 1)(degree - 1), the last of its control points and the first of the next. */
  lemma SegmentEndsOnTrajectory(curve: seq<Vector>, trajectory: seq<Vector>, dim: nat, degree: nat, samples: nat,
                                s: nat) returns (last: nat, point: nat)
    requires 1 <= degree <= |trajectory| && samples > 0 && s < Segments(|trajectory|, degree)
    requires IsCurve(curve, trajectory, dim, degree, samples, Segments(|trajectory|, degree))
    ensures last == (s + 1) * samples - 1 && point == (s + 1) * (degree - 1)
    ensures last < |curve| && point < |trajectory| && curve[last] == trajectory[point]
  {
    hide IsBezierPoint, Segments, IsSample;
    last, point := s * samples + (samples - 1), s * (degree - 1) + (degree - 1);
    ControlPointsInBounds(|trajectory|, degree, s);
    SegmentFits(s, Segments(|trajectory|, degree), samples);
    assert IsSample(curve, trajectory, dim, degree, samples, s, samples - 1);
    SampleIsBezier(curve, trajectory, dim, degree, samples, s, samples - 1);
    assert samples as real / samples as real == 1.0;
    BezierEnd(curve[last], ControlPoints(trajectory, degree, s), dim);
  }

  /** So the curve stops short: its last sample is the trajectory point at the end of the last segment,
      with LeftOver points, at least degree, behind it. */
  lemma CurveStopsShort(curve: seq<Vector>, trajectory: seq<Vector>, dim: nat, degree: nat, samples: nat)
    requires 1 <= degree <= |trajectory| && samples > 0
    requires IsCurve(curve, trajectory, dim, degree, samples, Segments(|trajectory|, degree))
    requires |trajectory| >= 2 * degree
    ensures degree <= LeftOver(|trajectory|, degree) < |trajectory|
    ensures curve != [] && curve[|curve| - 1] == trajectory[|trajectory| - 1 - LeftOver(|trajectory|, degree)]
  {
    hide IsCurve, Segments;
    var q := Segments(|trajectory|, degree);
    NoSegmentsIff(|trajectory|, degree);
    var last, point := SegmentEndsOnTrajectory(curve, trajectory, dim, degree, samples, q - 1);
    CurveLength(curve, trajectory, dim, degree, samples);
  }

  lemma CurveLength(curve: seq<Vector>, trajectory: seq<Vector>, dim: nat, degree: nat, samples: nat)
    requires 1 <= degree <= |trajectory| && samples > 0
    requires IsCurve(curve, trajectory, dim, degree, samples, Segments(|trajectory|, degree))
    ensures |curve| == Segments(|trajectory|, degree) * samples
  {
    hide IsSample;
  }

  lemma SegmentFits(s: nat, segments: nat, samples: nat)
    requires s < segments
    ensures s * samples + samples <= segments * samples
  {
    MulMono(s + 1, segments, samples);
  }

  lemma SampleIsBezier(curve: seq<Vector>, trajectory: seq<Vector>, dim: nat, degree: nat, samples: nat, s: nat, j: nat)
    requires 1 <= degree <= |trajectory| && s < Segments(|trajectory|, degree) && samples > 0
    requires s * (degree - 1) + degree <= |trajectory|
    requires IsSample(curve, trajectory, dim, degree, samples, s, j)
    ensures SampleAt(curve, s * samples, ControlPoints(trajectory, degree, s), dim, samples, j)
  {
    hide IsBezierPoint, Segments;
  }

  /** At parameter one the Bezier point is the last control point. */
  lemma BezierEnd(p: Vector, points: seq<Vector>, dim: nat)
    requires IsBezierPoint(p, points, dim, 1.0)
    ensures p == points[|points| - 1]
  {
    hide Combination, Coordinate;
    var last := points[|points| - 1];
    forall c | 0 <= c < dim ensures p[c] == last[c] {
      LastCoordinate(points, dim, c);
    }
  }

  lemma LastCoordinate(points: seq<Vector>, dim: nat, c: nat)
    requires points != [] && Uniform(points, dim) && c < dim
    ensures Combination(1.0, Coordinate(points, dim, c)) == points[|points| - 1][c]
  {
    WeightedAtOne(|points| - 1, Coordinate(points, dim, c), |points|);
  }
}
