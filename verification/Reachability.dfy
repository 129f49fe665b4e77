/** The greedy pass of `updateReachabilityForPath` in data_collection_planner.cpp, which pairs the
    points a mission collected with the points it planned and reports each planned point to the cost
    map.  Distances are exact non-negative reals, given by a function. */
module Reachability {

  datatype Point = Point(x: real, y: real)

  /** A report to the cost map. */
  datatype Update = Update(planned: Point, actual: Point, success: bool, stability: real)

  type Distance = (Point, Point) -> real

  ghost predicate NonNegative(dist: Distance) { forall a, b :: dist(a, b) >= 0.0 }

  predicate Near(dist: Distance, tol: real, a: Point, b: Point) { dist(a, b) <= tol }

  /** With tolerance 0 the quotient is not a number, and `std::max` keeps its first argument. */
  function Stability(d: real, tol: real): real {
    if tol == 0.0 then 0.1
    else
      var s := 1.0 - d / tol;
      if 0.1 < s then s else 0.1
  }

  /** `m[k]` is the place on the path of collected point `k`: order-preserving, injective, and
      every pair within tolerance. */
  predicate Matching(dist: Distance, tol: real, path: seq<Point>, collected: seq<Point>, m: seq<nat>) {
    && |m| <= |collected|
    && (forall k :: 0 <= k < |m| ==> m[k] < |path| && Near(dist, tol, path[m[k]], collected[k]))
    && (forall j, k :: 0 <= j < k < |m| ==> m[j] < m[k])
  }

  /** The matching the pass has made after `n` planned points. */
  function Greedy(dist: Distance, tol: real, path: seq<Point>, collected: seq<Point>, n: nat): seq<nat>
    requires n <= |path|
  {
    if n == 0 then []
    else
      var m := Greedy(dist, tol, path, collected, n - 1);
      if |m| < |collected| && Near(dist, tol, path[n - 1], collected[|m|]) then m + [n - 1] else m
  }

  /** What planned point `i` is reported as, given the final matching. */
  function Told(dist: Distance, tol: real, path: seq<Point>, collected: seq<Point>, m: seq<nat>, k: nat, i: nat): Update
    requires i < |path| && k <= |m| <= |collected|
  {
    if k < |m| && m[k] == i then Update(path[i], collected[k], true, Stability(dist(path[i], collected[k]), tol))
    else Update(path[i], path[i], false, 0.1)
  }

  /** The matches at planned points before `i`. */
  function Before(m: seq<nat>, i: nat): (k: nat)
    ensures k <= |m|
  {
    if m == [] || m[|m| - 1] < i then |m| else Before(m[..|m| - 1], i)
  }

  // ---------------------------------------------------------------- the matching

  /** All places are among the first `n`. */
  predicate Within(m: seq<nat>, n: nat) { forall k :: 0 <= k < |m| ==> m[k] < n }

  /** At least as long, and nowhere later. */
  predicate NoWorse(m: seq<nat>, other: seq<nat>) {
    |other| <= |m| && forall k :: 0 <= k < |other| ==> m[k] <= other[k]
  }

  lemma GreedyStarts(dist: Distance, tol: real, path: seq<Point>, collected: seq<Point>)
    ensures var m := Greedy(dist, tol, path, collected, 0); Matching(dist, tol, path, collected, m) && Within(m, 0)
  {
  }

  /** One turn of the pass. */
  lemma GreedyTurn(dist: Distance, tol: real, path: seq<Point>, collected: seq<Point>, n: nat)
    requires 0 < n <= |path|
    ensures var before, m := Greedy(dist, tol, path, collected, n - 1), Greedy(dist, tol, path, collected, n);
            && before <= m
            && m == if |before| < |collected| && Near(dist, tol, path[n - 1], collected[|before|]) then before + [n - 1]
                    else before
  {
    hide Near;
  }

  /** A matching within the first `i` points may go on with point `i`. */
  lemma MatchingGrows(dist: Distance, tol: real, path: seq<Point>, collected: seq<Point>, m: seq<nat>, i: nat)
    requires i < |path| && Matching(dist, tol, path, collected, m) && Within(m, i)
    ensures Within(m, i + 1)
    ensures |m| < |collected| && Near(dist, tol, path[i], collected[|m|]) ==>
              Matching(dist, tol, path, collected, m + [i]) && Within(m + [i], i + 1)
  {
    hide Near;
  }

  lemma {:induction false} GreedyMatches(dist: Distance, tol: real, path: seq<Point>, collected: seq<Point>, n: nat)
    requires n <= |path|
    ensures var m := Greedy(dist, tol, path, collected, n);
            Matching(dist, tol, path, collected, m) && Within(m, n)
  {
    hide Matching, Near, Within, Greedy;
    if n == 0 {
      GreedyStarts(dist, tol, path, collected);
    } else {
      GreedyMatches(dist, tol, path, collected, n - 1);
      GreedyTurn(dist, tol, path, collected, n);
      MatchingGrows(dist, tol, path, collected, Greedy(dist, tol, path, collected, n - 1), n - 1);
    }
  }

  /** The pass is best among all matchings of a prefix of the collected points: no matching that
      stays within the first `n` planned points is longer, and none places a point earlier. */
  lemma {:induction false} GreedyIsBest(
    dist: Distance, tol: real, path: seq<Point>, collected: seq<Point>, n: nat, other: seq<nat>)
    requires n <= |path| && Matching(dist, tol, path, collected, other)
    requires Within(other, n)
    ensures NoWorse(Greedy(dist, tol, path, collected, n), other)
  {
    hide Matching, Near, Within, NoWorse, Greedy;
    if other == [] {
      EmptyIsWorse(Greedy(dist, tol, path, collected, n));
    } else {
      NotEmpty(other, n);
      var before, m := Greedy(dist, tol, path, collected, n - 1), Greedy(dist, tol, path, collected, n);
      var shorter := other[..|other| - 1];
      if other[|other| - 1] == n - 1 {
        ShorterMatches(dist, tol, path, collected, other);
        GreedyIsBest(dist, tol, path, collected, n - 1, shorter);
        GreedyMatches(dist, tol, path, collected, n - 1);
        TurnTakes(dist, tol, path, collected, n, other);
        LastPair(before, m, other, n - 1);
      } else {
        WithinLess(dist, tol, path, collected, other, n);
        GreedyIsBest(dist, tol, path, collected, n - 1, other);
        GreedyTurn(dist, tol, path, collected, n);
        PrefixPairs(before, m, other);
      }
    }
  }

  lemma EmptyIsWorse(m: seq<nat>)
    ensures NoWorse(m, [])
  {
  }

  lemma NotEmpty(m: seq<nat>, n: nat)
    requires m != [] && Within(m, n)
    ensures n > 0 && m[|m| - 1] < n
  {
  }

  /** A turn at which `other` places its last point adds a match, unless there are enough already. */
  lemma TurnTakes(dist: Distance, tol: real, path: seq<Point>, collected: seq<Point>, n: nat, other: seq<nat>)
    requires 0 < n <= |path| && other != [] && |other| <= |collected|
    requires Near(dist, tol, path[n - 1], collected[|other| - 1])
    requires NoWorse(Greedy(dist, tol, path, collected, n - 1), other[..|other| - 1])
    ensures var before, m := Greedy(dist, tol, path, collected, n - 1), Greedy(dist, tol, path, collected, n);
            m == before + [n - 1] || (m == before && |before| >= |other|)
  {
    hide Near, Greedy;
    GreedyTurn(dist, tol, path, collected, n);
  }

  lemma PrefixPairs(before: seq<nat>, m: seq<nat>, other: seq<nat>)
    requires before <= m && NoWorse(before, other)
    ensures NoWorse(m, other)
  {
  }

  lemma LastPair(before: seq<nat>, m: seq<nat>, other: seq<nat>, x: nat)
    requires other != [] && other[|other| - 1] == x && NoWorse(before, other[..|other| - 1])
    requires Within(before, x)
    requires m == before + [x] || (m == before && |before| >= |other|)
    ensures NoWorse(m, other)
  {
    var shorter := other[..|other| - 1];
    forall k | 0 <= k < |other| ensures m[k] <= other[k] {
      if k < |shorter| { assert shorter[k] == other[k]; }
    }
  }

  lemma WithinLess(dist: Distance, tol: real, path: seq<Point>, collected: seq<Point>, m: seq<nat>, n: nat)
    requires Matching(dist, tol, path, collected, m) && Within(m, n) && m != [] && m[|m| - 1] != n - 1
    ensures Within(m, n - 1)
  {
    hide Near;
    forall k | 0 <= k < |m| ensures m[k] < n - 1 {
      assert m[k] <= m[|m| - 1];
    }
  }

  lemma ShorterMatches(dist: Distance, tol: real, path: seq<Point>, collected: seq<Point>, m: seq<nat>)
    requires Matching(dist, tol, path, collected, m) && m != []
    ensures var last := |m| - 1;
            && Matching(dist, tol, path, collected, m[..last])
            && last < |collected| && m[last] < |path| && Near(dist, tol, path[m[last]], collected[last])
            && Within(m[..last], m[last])
  {
    hide Near;
    var shorter := m[..|m| - 1];
    forall k | 0 <= k < |shorter| ensures shorter[k] == m[k] {
    }
  }

  // ---------------------------------------------------------------- the results

  /** The pass matches every collected point exactly when some order-preserving matching does. */
  lemma AllMatchedIff(dist: Distance, tol: real, path: seq<Point>, collected: seq<Point>)
    ensures |Greedy(dist, tol, path, collected, |path|)| == |collected|
       <==> exists m: seq<nat> :: |m| == |collected| && Matching(dist, tol, path, collected, m)
  {
    GreedyMatches(dist, tol, path, collected, |path|);
    if m: seq<nat> :| |m| == |collected| && Matching(dist, tol, path, collected, m) {
      GreedyIsBest(dist, tol, path, collected, |path|, m);
    }
  }

  /** A collected point near no planned point blocks itself and everything collected after it. */
  lemma StrayPointBlocks(dist: Distance, tol: real, path: seq<Point>, collected: seq<Point>, stray: nat)
    requires stray < |collected|
    requires forall i :: 0 <= i < |path| ==> !Near(dist, tol, path[i], collected[stray])
    ensures |Greedy(dist, tol, path, collected, |path|)| <= stray
  {
    GreedyMatches(dist, tol, path, collected, |path|);
  }

  /** Every stability reported for a match lies in [0.1, 1]; it is 1 for the exact spot and falls to
      0.1 from nine tenths of the tolerance on. */
  lemma StabilityInRange(d: real, tol: real)
    requires 0.0 <= d <= tol
    ensures 0.1 <= Stability(d, tol) <= 1.0
    ensures tol > 0.0 ==> (Stability(d, tol) == 1.0 <==> d == 0.0)
    ensures tol > 0.0 ==> (Stability(d, tol) == 0.1 <==> d >= 0.9 * tol)
    ensures tol > 0.0 ==> Stability(d, tol) * tol == if d <= 0.9 * tol then tol - d else 0.1 * tol
  {
    if tol > 0.0 {
      var q := d / tol;
      Scale(q, 0.9, d, tol);
      Scale(q, 0.0, d, tol);
      Scale(q, 1.0, d, tol);
    }
  }

  lemma Scale(q: real, c: real, d: real, t: real)
    requires d == q * t && t > 0.0
    ensures q < c <==> d < c * t
    ensures q == c <==> d == c * t
  {
    if q < c {
      assert (c - q) * t > 0.0;
    } else if q > c {
      assert (q - c) * t > 0.0;
    }
  }

  lemma {:induction false} BeforeIs(m: seq<nat>, done: nat, i: nat)
    requires done <= |m|
    requires forall k :: 0 <= k < done ==> m[k] < i
    requires forall k :: done <= k < |m| ==> m[k] >= i
    ensures Before(m, i) == done
  {
    if done < |m| { BeforeIs(m[..|m| - 1], done, i); }
  }

  lemma {:induction false} BeforeCounts(m: seq<nat>, i: nat)
    requires forall j, k :: 0 <= j < k < |m| ==> m[j] < m[k]
    ensures var k := Before(m, i); (i in m <==> k < |m| && m[k] == i)
  {
    if m != [] && m[|m| - 1] >= i {
      BeforeCounts(m[..|m| - 1], i);
      assert m == m[..|m| - 1] + [m[|m| - 1]];
    }
  }

  /** Collected point `k` is matched with planned point `i`. */
  predicate Pairs(m: seq<nat>, k: nat, i: nat) { k < |m| && m[k] == i }

  /** A report says success exactly for the planned points in the matching, with the point collected
      there and a stability in range; any other planned point is reported as itself, with 0.1. */
  lemma ToldMeans(dist: Distance, tol: real, path: seq<Point>, collected: seq<Point>, i: nat) returns (k: nat)
    requires i < |path| && NonNegative(dist)
    ensures var m := Greedy(dist, tol, path, collected, |path|);
            |m| <= |collected| && var u := Told(dist, tol, path, collected, m, Before(m, i), i);
            && u.planned == path[i] && (u.success <==> i in m) && 0.1 <= u.stability <= 1.0
            && (u.success ==>
                  && k < |collected| && Pairs(m, k, i) && u.actual == collected[k] && dist(path[i], u.actual) <= tol
                  && u.stability == Stability(dist(path[i], u.actual), tol))
            && (!u.success ==> u.actual == path[i] && u.stability == 0.1)
  {
    hide Greedy, Before, Matching, Stability;
    var m := Greedy(dist, tol, path, collected, |path|);
    GreedyMatches(dist, tol, path, collected, |path|);
    LengthOf(dist, tol, path, collected, m);
    GreedyIncreases(dist, tol, path, collected, m);
    BeforeCounts(m, i);
    k := Before(m, i);
    if k < |m| && m[k] == i {
      PairIsNear(dist, tol, path, collected, m, k);
      StabilityInRange(dist(path[i], collected[k]), tol);
    }
  }

  lemma GreedyIncreases(dist: Distance, tol: real, path: seq<Point>, collected: seq<Point>, m: seq<nat>)
    requires Matching(dist, tol, path, collected, m)
    ensures forall j, k :: 0 <= j < k < |m| ==> m[j] < m[k]
  {
    hide Near;
  }

  lemma PairIsNear(dist: Distance, tol: real, path: seq<Point>, collected: seq<Point>, m: seq<nat>, k: nat)
    requires Matching(dist, tol, path, collected, m) && k < |m|
    ensures k < |collected| && m[k] < |path| && dist(path[m[k]], collected[k]) <= tol
  {
  }

  // ---------------------------------------------------------------- the method

  /** How many planned points the pass looks at: it stops once every collected point is matched. */
  function Visited(dist: Distance, tol: real, path: seq<Point>, collected: seq<Point>): (n: nat)
    ensures n <= |path|
  {
    var m := Greedy(dist, tol, path, collected, |path|);
    if |m| < |collected| then |path|
    else if m == [] then 0
    else if m[|m| - 1] < |path| then m[|m| - 1] + 1 else |path|
  }

  lemma {:induction false} GreedyGrows(
    dist: Distance, tol: real, path: seq<Point>, collected: seq<Point>, n: nat, last: nat)
    requires n <= last <= |path|
    ensures var m, all := Greedy(dist, tol, path, collected, n), Greedy(dist, tol, path, collected, last);
            m <= all && (forall k :: |m| <= k < |all| ==> all[k] >= n)
    decreases last
  {
    if n < last { GreedyGrows(dist, tol, path, collected, n, last - 1); }
  }

  /** Looking at planned point `i` either makes the next match or none. */
  lemma NextMatch(dist: Distance, tol: real, path: seq<Point>, collected: seq<Point>, i: nat)
    requires i < |path|
    ensures var m, all := Greedy(dist, tol, path, collected, i), Greedy(dist, tol, path, collected, |path|);
            && Before(all, i) == |m| <= |all| <= |collected|
            && (|m| < |collected| && Near(dist, tol, path[i], collected[|m|]) <==> |m| < |all| && all[|m|] == i)
  {
    hide Matching, Near, Before;
    var m, all := Greedy(dist, tol, path, collected, i), Greedy(dist, tol, path, collected, |path|);
    GreedyMatches(dist, tol, path, collected, i);
    GreedyMatches(dist, tol, path, collected, |path|);
    GreedyGrows(dist, tol, path, collected, i, |path|);
    GreedyGrows(dist, tol, path, collected, i + 1, |path|);
    BeforeIs(all, |m|, i);
    LengthOf(dist, tol, path, collected, all);
  }

  /** The pass goes on past planned point `i` exactly when a collected point is left to match. */
  lemma VisitedIff(dist: Distance, tol: real, path: seq<Point>, collected: seq<Point>, i: nat)
    requires i < |path|
    ensures i < Visited(dist, tol, path, collected) <==> |Greedy(dist, tol, path, collected, i)| < |collected|
  {
    hide Near;
    var m, all := Greedy(dist, tol, path, collected, i), Greedy(dist, tol, path, collected, |path|);
    GreedyMatches(dist, tol, path, collected, i);
    GreedyMatches(dist, tol, path, collected, |path|);
    GreedyGrows(dist, tol, path, collected, i, |path|);
  }

  lemma NothingYet(dist: Distance, tol: real, path: seq<Point>, collected: seq<Point>)
    ensures Greedy(dist, tol, path, collected, 0) == []
  {
  }

  /** What one turn of the loop does, seen from the final matching. */
  lemma LookAt(dist: Distance, tol: real, path: seq<Point>, collected: seq<Point>, i: nat)
    requires i < |path| && |Greedy(dist, tol, path, collected, i)| < |collected|
    ensures var m, now, all := Greedy(dist, tol, path, collected, i), Greedy(dist, tol, path, collected, i + 1),
                               Greedy(dist, tol, path, collected, |path|);
            var d := dist(path[i], collected[|m|]);
            && i < Visited(dist, tol, path, collected) && |all| <= |collected|
            && |now| == (if d <= tol then |m| + 1 else |m|)
            && Told(dist, tol, path, collected, all, Before(all, i), i)
               == if d <= tol then Update(path[i], collected[|m|], true, Stability(d, tol))
                  else Update(path[i], path[i], false, 0.1)
  {
    hide Visited, Before, Stability, Greedy;
    NextMatch(dist, tol, path, collected, i);
    VisitedIff(dist, tol, path, collected, i);
    GreedyTurn(dist, tol, path, collected, i + 1);
  }

  method UpdateReachabilityForPath(dist: Distance, tol: real, path: seq<Point>, collected: seq<Point>)
    returns (updates: seq<Update>)
    ensures |updates| == Visited(dist, tol, path, collected)
    ensures var m := Greedy(dist, tol, path, collected, |path|);
            && |m| <= |collected|
            && forall i :: 0 <= i < |updates| ==> updates[i] == Told(dist, tol, path, collected, m, Before(m, i), i)
  {
    hide Matching, Visited, Before, Greedy, Told, Stability;
    updates := [];
    ghost var m := Greedy(dist, tol, path, collected, |path|);
    GreedyMatches(dist, tol, path, collected, |path|);
    LengthOf(dist, tol, path, collected, m);
    if path == [] {
      EmptyPath(dist, tol, path, collected);
      return;
    }
    var collectedIdx, i := 0, 0;
    NothingYet(dist, tol, path, collected);
    while i < |path| && collectedIdx < |collected|
      invariant i <= |path| && i == |updates| && |m| <= |collected|
      invariant collectedIdx == |Greedy(dist, tol, path, collected, i)| <= |collected|
      invariant i <= Visited(dist, tol, path, collected)
      invariant forall j :: 0 <= j < i ==> updates[j] == Told(dist, tol, path, collected, m, Before(m, j), j)
    {
      LookAt(dist, tol, path, collected, i);
      var d := dist(path[i], collected[collectedIdx]);
      if d <= tol {
        updates := updates + [Update(path[i], collected[collectedIdx], true, Stability(d, tol))];
        collectedIdx := collectedIdx + 1;
      } else {
        updates := updates + [Update(path[i], path[i], false, 0.1)];
      }
      i := i + 1;
    }
    if i < |path| { VisitedIff(dist, tol, path, collected, i); }
  }

  lemma LengthOf(dist: Distance, tol: real, path: seq<Point>, collected: seq<Point>, m: seq<nat>)
    requires Matching(dist, tol, path, collected, m)
    ensures |m| <= |collected|
  {
  }

  lemma EmptyPath(dist: Distance, tol: real, path: seq<Point>, collected: seq<Point>)
    requires path == []
    ensures Visited(dist, tol, path, collected) == 0
  {
  }
}
