/** A mission: the waypoint loops of robot_controller.cpp with the collection gate of
    data_collection_planner.cpp.

    Sensors, clocks and the recording service are inputs: one `Reading` for each turn of the control
    loop, with the difference of the yaws as measured.  Reals are exact, and the cosine of the yaw
    error is any value the reading gives. */
module Mission {

  import opened Common
  import opened Reachability

  datatype Config = Config(
    dist: Distance, waypointTolerance: real, maxForward: real, maxAngular: real, kpAngular: real,
    minStepDistance: real, minCollectionInterval: real)

  /** One call of the checker: the clock it reads, the executor's cooldown and its verdict on the
      waypoint, whether the trigger service is there, answers in time and reports success, and the
      clock after a collection. */
  datatype Attempt = Attempt(
    now: real, cooling: bool, wanted: bool, serviceReady: bool, answered: bool, success: bool, stamp: real)

  datatype Reading = Reading(
    position: Point, elapsed: real, yawError: real, alignment: real, first: Attempt, second: Attempt)

  datatype Collected = Collected(index: nat, waypoint: Point, asked: real, stamp: real)

  /** What the checker closure captures. */
  datatype Last = Last(position: Point, time: real)

  datatype Command = Command(forward: real, lateral: real, angular: real)

  const STOP := Command(0.0, 0.0, 0.0)

  const WAYPOINT_TIMEOUT := 15.0

  const PI := 3.14159265358979323846

  datatype Progress = Progress(
    currentWp: nat, reached: nat, skipped: nat, collected: seq<Collected>, last: Last, commands: seq<Command>)

  // ---------------------------------------------------------------- the loops as functions

  /** `tryCollect`. */
  predicate Collects(cfg: Config, last: Last, waypoint: Point, a: Attempt) {
    && !(cfg.dist(waypoint, last.position) < cfg.minStepDistance || a.now - last.time < cfg.minCollectionInterval)
    && !a.cooling && a.wanted && a.serviceReady && a.answered && a.success
  }

  /** One call of the checker closure at waypoint `index`. */
  function Check(cfg: Config, p: Progress, waypoint: Point, index: nat, a: Attempt): Progress {
    if Collects(cfg, p.last, waypoint, a) then
      p.(collected := p.collected + [Collected(index, waypoint, a.now, a.stamp)], last := Last(waypoint, a.stamp))
    else p
  }

  /** At a reached waypoint the checker is called again, once, if the first call collects nothing. */
  function Arrive(cfg: Config, p: Progress, waypoint: Point, first: Attempt, second: Attempt): Progress {
    var q := Check(cfg, p.(reached := p.reached + 1), waypoint, p.currentWp, first);
    var r := if Collects(cfg, p.last, waypoint, first) then q else Check(cfg, q, waypoint, p.currentWp, second);
    r.(currentWp := p.currentWp + 1)
  }

  function Clamp(x: real, lo: real, hi: real): real { if x < lo then lo else if hi < x then hi else x }

  /** The yaw error brought into [-PI, PI] by whole turns. */
  function Unwound(error: real): (r: real)
    ensures -PI <= r <= PI
    decreases if error > PI then error else if error < -PI then -error else 0.0
  {
    if error > PI then Unwound(error - 2.0 * PI) else if error < -PI then Unwound(error + 2.0 * PI) else error
  }

  function Proportional(gain: real, error: real): real { gain * error }

  function Scaled(speed: real, alignment: real): real { speed * alignment }

  function Steer(cfg: Config, distance: real, yawError: real, alignment: real): Command {
    Command(if alignment > 0.0 then Scaled(Min(cfg.maxForward, distance * 2.0), alignment) else 0.0, 0.0,
            Clamp(Proportional(cfg.kpAngular, Unwound(yawError)), -cfg.maxAngular, cfg.maxAngular))
  }

  function Turn(cfg: Config, path: seq<Point>, p: Progress, r: Reading): Progress
    requires p.currentWp < |path|
  {
    var target := path[p.currentWp];
    if r.elapsed > WAYPOINT_TIMEOUT then p.(currentWp := p.currentWp + 1, skipped := p.skipped + 1)
    else if cfg.dist(target, r.position) < cfg.waypointTolerance then Arrive(cfg, p, target, r.first, r.second)
    else p.(commands := p.commands + [Steer(cfg, cfg.dist(target, r.position), r.yawError, r.alignment)])
  }

  function Begin(first: nat, last: Last): Progress { Progress(first, 0, 0, [], last, []) }

  /** The velocity loop after `n` turns. */
  function Drive(cfg: Config, path: seq<Point>, last: Last, readings: nat -> Reading, n: nat): Progress {
    if n == 0 then Begin(1, last)
    else
      var p := Drive(cfg, path, last, readings, n - 1);
      if p.currentWp < |path| then Turn(cfg, path, p, readings(n - 1)) else p
  }

  /** The path-tracking loop after `n` waypoints; `arrives(i)` is the answer of `waitForWaypoint`. */
  function Track(cfg: Config, path: seq<Point>, last: Last, arrives: nat -> bool, attempts: nat -> Attempt, n: nat)
    : Progress
    requires n <= |path|
  {
    if n == 0 then Begin(0, last)
    else
      var p := Track(cfg, path, last, arrives, attempts, n - 1);
      if arrives(n - 1) then
        Check(cfg, p.(reached := p.reached + 1), path[n - 1], n - 1, attempts(n - 1)).(currentWp := n)
      else p.(currentWp := n, skipped := p.skipped + 1)
  }

  // ---------------------------------------------------------------- the invariant

  /** Two collections in a row are a step and an interval apart. */
  predicate Apart(cfg: Config, before: Last, c: Collected) {
    cfg.dist(c.waypoint, before.position) >= cfg.minStepDistance && c.asked - before.time >= cfg.minCollectionInterval
  }

  function LastOf(start: Last, collected: seq<Collected>): Last {
    if collected == [] then start
    else var c := collected[|collected| - 1]; Last(c.waypoint, c.stamp)
  }

  ghost predicate Gated(cfg: Config, path: seq<Point>, start: Last, collected: seq<Collected>, first: nat, end: nat) {
    && (forall k :: 0 <= k < |collected| ==>
          first <= collected[k].index < end && collected[k].index < |path|
          && collected[k].waypoint == path[collected[k].index])
    && (forall j, k :: 0 <= j < k < |collected| ==> collected[j].index < collected[k].index)
    && (forall k :: 0 <= k < |collected| ==> Apart(cfg, LastOf(start, collected[..k]), collected[k]))
  }

  ghost predicate Inv(cfg: Config, path: seq<Point>, start: Last, p: Progress, first: nat) {
    && Gated(cfg, path, start, p.collected, first, p.currentWp)
    && p.last == LastOf(start, p.collected)
    && |p.collected| <= p.reached && first + p.reached + p.skipped == p.currentWp
  }

  lemma CheckKeepsGate(cfg: Config, path: seq<Point>, start: Last, p: Progress, first: nat, index: nat, a: Attempt)
    requires Gated(cfg, path, start, p.collected, first, index) && p.last == LastOf(start, p.collected)
    requires first <= index < |path|
    ensures var q := Check(cfg, p, path[index], index, a);
            Gated(cfg, path, start, q.collected, first, index + 1) && q.last == LastOf(start, q.collected)
  {
    hide Collects, Apart, LastOf;
    var q := Check(cfg, p, path[index], index, a);
    if q != p {
      CollectsMeansApart(cfg, p.last, path[index], index, a);
      LastOfAppend(start, p.collected, q.collected[|p.collected|]);
      forall k | 0 <= k < |q.collected| ensures Apart(cfg, LastOf(start, q.collected[..k]), q.collected[k]) {
        if k < |p.collected| {
          assert q.collected[..k] == p.collected[..k] && q.collected[k] == p.collected[k];
        } else {
          assert q.collected[..k] == p.collected;
        }
      }
    }
  }

  lemma CollectsMeansApart(cfg: Config, last: Last, waypoint: Point, index: nat, a: Attempt)
    requires Collects(cfg, last, waypoint, a)
    ensures Apart(cfg, last, Collected(index, waypoint, a.now, a.stamp))
  {
  }

  lemma LastOfAppend(start: Last, collected: seq<Collected>, c: Collected)
    ensures LastOf(start, collected + [c]) == Last(c.waypoint, c.stamp)
  {
  }

  lemma CheckFrame(cfg: Config, p: Progress, waypoint: Point, index: nat, a: Attempt)
    ensures var q := Check(cfg, p, waypoint, index, a);
            && q.currentWp == p.currentWp && q.reached == p.reached && q.skipped == p.skipped
            && q.commands == p.commands
            && |q.collected| == |p.collected| + (if Collects(cfg, p.last, waypoint, a) then 1 else 0)
            && (!Collects(cfg, p.last, waypoint, a) ==> q == p)
  {
  }

  lemma GatedLonger(cfg: Config, path: seq<Point>, start: Last, collected: seq<Collected>, first: nat, end: nat)
    requires Gated(cfg, path, start, collected, first, end)
    ensures Gated(cfg, path, start, collected, first, end + 1)
  {
  }

  lemma ArriveKeepsInv(cfg: Config, path: seq<Point>, start: Last, p: Progress, first: nat, a: Attempt, b: Attempt)
    requires Inv(cfg, path, start, p, first) && first <= p.currentWp < |path|
    ensures Inv(cfg, path, start, Arrive(cfg, p, path[p.currentWp], a, b), first)
    ensures Arrive(cfg, p, path[p.currentWp], a, b).commands == p.commands
  {
    hide Gated, Check, Collects, LastOf;
    var i, q := p.currentWp, p.(reached := p.reached + 1);
    CheckKeepsGate(cfg, path, start, q, first, i, a);
    CheckFrame(cfg, q, path[i], i, a);
    if !Collects(cfg, p.last, path[i], a) {
      CheckKeepsGate(cfg, path, start, q, first, i, b);
      CheckFrame(cfg, q, path[i], i, b);
    }
  }

  lemma TurnKeepsInv(cfg: Config, path: seq<Point>, start: Last, p: Progress, r: Reading)
    requires Inv(cfg, path, start, p, 1) && 1 <= p.currentWp < |path|
    ensures Inv(cfg, path, start, Turn(cfg, path, p, r), 1) && p.currentWp <= Turn(cfg, path, p, r).currentWp <= |path|
  {
    hide Gated, Arrive, Steer, LastOf;
    ArriveKeepsInv(cfg, path, start, p, 1, r.first, r.second);
    ArriveMovesOn(cfg, p, path[p.currentWp], r);
    GatedLonger(cfg, path, start, p.collected, 1, p.currentWp);
  }

  lemma ArriveMovesOn(cfg: Config, p: Progress, waypoint: Point, r: Reading)
    ensures Arrive(cfg, p, waypoint, r.first, r.second).currentWp == p.currentWp + 1
  {
  }

  lemma {:induction false} DriveKeepsInv(cfg: Config, path: seq<Point>, start: Last, readings: nat -> Reading, n: nat)
    requires |path| >= 2
    ensures var p := Drive(cfg, path, start, readings, n); Inv(cfg, path, start, p, 1) && 1 <= p.currentWp <= |path|
  {
    hide Inv, Turn;
    if n == 0 {
      BeginInv(cfg, path, start, 1);
    } else {
      DriveKeepsInv(cfg, path, start, readings, n - 1);
      var p := Drive(cfg, path, start, readings, n - 1);
      if p.currentWp < |path| { TurnKeepsInv(cfg, path, start, p, readings(n - 1)); }
    }
  }

  lemma BeginInv(cfg: Config, path: seq<Point>, start: Last, first: nat)
    ensures Inv(cfg, path, start, Begin(first, start), first)
  {
  }

  lemma {:induction false} TrackKeepsInv(
    cfg: Config, path: seq<Point>, start: Last, arrives: nat -> bool, attempts: nat -> Attempt, n: nat)
    requires n <= |path|
    ensures var p := Track(cfg, path, start, arrives, attempts, n); Inv(cfg, path, start, p, 0) && p.currentWp == n
  {
    hide Gated, Check, LastOf;
    if n == 0 {
      BeginInv(cfg, path, start, 0);
    } else {
      TrackKeepsInv(cfg, path, start, arrives, attempts, n - 1);
      var p := Track(cfg, path, start, arrives, attempts, n - 1);
      var q := p.(reached := p.reached + 1);
      CheckKeepsGate(cfg, path, start, q, 0, n - 1, attempts(n - 1));
      CheckFrame(cfg, q, path[n - 1], n - 1, attempts(n - 1));
      GatedLonger(cfg, path, start, p.collected, 0, n - 1);
    }
  }

  // ---------------------------------------------------------------- the results

  /** In velocity mode waypoint 0 is never visited, every waypoint passed was either reached or
      skipped on a timeout, and collected <= reached <= path length - 1. */
  lemma {:induction false} VelocityCounts(cfg: Config, path: seq<Point>, start: Last, readings: nat -> Reading, n: nat)
    requires |path| >= 2
    ensures var p := Drive(cfg, path, start, readings, n);
            && |p.collected| <= p.reached <= |path| - 1
            && p.reached + p.skipped == p.currentWp - 1 <= |path| - 1
  {
    DriveKeepsInv(cfg, path, start, readings, n);
  }

  /** Collected waypoints have strictly increasing indices, so none is collected twice in spite of the
      retry; each is a point of the path at least a step and an interval after the one before. */
  lemma VelocityCollectionsAreApart(
    cfg: Config, path: seq<Point>, start: Last, readings: nat -> Reading, n: nat, k: nat)
    requires |path| >= 2 && k + 1 < |Drive(cfg, path, start, readings, n).collected|
    ensures var c := Drive(cfg, path, start, readings, n).collected;
            && 1 <= c[k].index < c[k + 1].index < |path|
            && c[k].waypoint == path[c[k].index] && c[k + 1].waypoint == path[c[k + 1].index]
            && cfg.dist(path[c[k + 1].index], path[c[k].index]) >= cfg.minStepDistance
            && c[k + 1].asked - c[k].stamp >= cfg.minCollectionInterval
  {
    DriveKeepsInv(cfg, path, start, readings, n);
    var p := Drive(cfg, path, start, readings, n);
    NeighboursApart(cfg, path, start, p.collected, 1, p.currentWp, k);
  }

  /** The same gate holds when path tracking drives the robot. */
  lemma TrackingCollectionsAreApart(
    cfg: Config, path: seq<Point>, start: Last, arrives: nat -> bool, attempts: nat -> Attempt, k: nat)
    requires k + 1 < |Track(cfg, path, start, arrives, attempts, |path|).collected|
    ensures var p := Track(cfg, path, start, arrives, attempts, |path|);
            var c := p.collected;
            && c[k].index < c[k + 1].index < |path| && |c| <= p.reached <= |path|
            && c[k].waypoint == path[c[k].index] && c[k + 1].waypoint == path[c[k + 1].index]
            && cfg.dist(path[c[k + 1].index], path[c[k].index]) >= cfg.minStepDistance
            && c[k + 1].asked - c[k].stamp >= cfg.minCollectionInterval
  {
    TrackKeepsInv(cfg, path, start, arrives, attempts, |path|);
    NeighboursApart(cfg, path, start, Track(cfg, path, start, arrives, attempts, |path|).collected, 0, |path|, k);
  }

  lemma NeighboursApart(cfg: Config, path: seq<Point>, start: Last, c: seq<Collected>, first: nat, end: nat, k: nat)
    requires Gated(cfg, path, start, c, first, end) && k + 1 < |c|
    ensures first <= c[k].index < c[k + 1].index < |path|
    ensures c[k].waypoint == path[c[k].index] && c[k + 1].waypoint == path[c[k + 1].index]
    ensures cfg.dist(c[k + 1].waypoint, c[k].waypoint) >= cfg.minStepDistance
    ensures c[k + 1].asked - c[k].stamp >= cfg.minCollectionInterval
  {
    assert Apart(cfg, LastOf(start, c[..k + 1]), c[k + 1]);
    assert c[..k + 1][k] == c[k];
  }

  predicate InRange(cfg: Config, c: Command) {
    0.0 <= c.forward <= cfg.maxForward && c.lateral == 0.0 && -cfg.maxAngular <= c.angular <= cfg.maxAngular
  }

  lemma SteerInRange(cfg: Config, distance: real, yawError: real, alignment: real)
    requires cfg.maxForward >= 0.0 && cfg.maxAngular >= 0.0 && distance >= 0.0 && -1.0 <= alignment <= 1.0
    ensures InRange(cfg, Steer(cfg, distance, yawError, alignment))
  {
    hide Clamp, Proportional, Unwound, Scaled;
    if alignment > 0.0 { Fraction(Min(cfg.maxForward, distance * 2.0), alignment); }
    ClampInRange(Proportional(cfg.kpAngular, Unwound(yawError)), cfg.maxAngular);
  }

  lemma ClampInRange(x: real, m: real)
    requires m >= 0.0
    ensures -m <= Clamp(x, -m, m) <= m
  {
  }

  lemma Fraction(m: real, a: real)
    requires m >= 0.0 && 0.0 <= a <= 1.0
    ensures 0.0 <= Scaled(m, a) <= m
  {
    assert m * (1.0 - a) >= 0.0;
  }

  ghost predicate CosinesInRange(readings: nat -> Reading) {
    forall k :: -1.0 <= readings(k).alignment <= 1.0
  }

  /** Every velocity command stays within the configured limits and has no lateral part. */
  lemma {:induction false} CommandsInRange(
    cfg: Config, path: seq<Point>, start: Last, readings: nat -> Reading, n: nat, k: nat)
    requires cfg.maxForward >= 0.0 && cfg.maxAngular >= 0.0 && NonNegative(cfg.dist)
    requires CosinesInRange(readings) && |path| >= 2
    requires k < |Drive(cfg, path, start, readings, n).commands|
    ensures InRange(cfg, Drive(cfg, path, start, readings, n).commands[k])
  {
    hide InRange, Steer, Arrive, Inv;
    if n > 0 {
      var p := Drive(cfg, path, start, readings, n - 1);
      DriveKeepsInv(cfg, path, start, readings, n - 1);
      if p.currentWp < |path| {
        var r, target := readings(n - 1), path[p.currentWp];
        ArriveKeepsInv(cfg, path, start, p, 1, r.first, r.second);
        SteerInRange(cfg, cfg.dist(target, r.position), r.yawError, r.alignment);
      }
      if k < |p.commands| { CommandsInRange(cfg, path, start, readings, n - 1, k); }
    }
  }

  /** Unwinding changes an angle by whole turns only, and leaves one that is in range alone. */
  lemma {:induction false} UnwoundIsSameAngle(error: real) returns (turns: int)
    ensures Unwound(error) == error + 2.0 * PI * turns as real
    ensures -PI <= error <= PI <==> Unwound(error) == error
    decreases if error > PI then error else if error < -PI then -error else 0.0
  {
    if error > PI {
      var fewer := UnwoundIsSameAngle(error - 2.0 * PI);
      turns := fewer - 1;
    } else if error < -PI {
      var fewer := UnwoundIsSameAngle(error + 2.0 * PI);
      turns := fewer + 1;
    } else {
      turns := 0;
    }
  }

  /** A robot looking away from its target turns on the spot. */
  lemma AwayTurnsOnTheSpot(cfg: Config, distance: real, yawError: real, alignment: real)
    requires cfg.maxForward > 0.0 && distance > 0.0
    ensures Steer(cfg, distance, yawError, alignment).forward > 0.0 <==> alignment > 0.0
  {
    hide Clamp, Proportional, Unwound, Scaled;
    var m := Min(cfg.maxForward, distance * 2.0);
    if alignment > 0.0 { ScaledPositive(m, alignment); }
  }

  lemma ScaledPositive(m: real, a: real)
    requires m > 0.0 && a > 0.0
    ensures Scaled(m, a) > 0.0
  {
  }

  /** A robot turns towards its target: left for a positive error, right for a negative one, in
      proportion to the error up to the limit.  It drives at twice the distance up to the limit, by
      the cosine of the error, and only when the target is ahead. */
  lemma SteersTowards(cfg: Config, distance: real, yawError: real, alignment: real)
    requires cfg.kpAngular > 0.0 && cfg.maxAngular > 0.0
    ensures var c, e := Steer(cfg, distance, yawError, alignment), Unwound(yawError);
            && (c.angular > 0.0 <==> e > 0.0) && (c.angular < 0.0 <==> e < 0.0)
            && (-cfg.maxAngular <= cfg.kpAngular * e <= cfg.maxAngular ==> c.angular == cfg.kpAngular * e)
            && (cfg.kpAngular * e > cfg.maxAngular ==> c.angular == cfg.maxAngular)
            && (cfg.kpAngular * e < -cfg.maxAngular ==> c.angular == -cfg.maxAngular)
    ensures var c := Steer(cfg, distance, yawError, alignment);
            && c.lateral == 0.0
            && (alignment <= 0.0 ==> c.forward == 0.0)
            && (alignment > 0.0 && 2.0 * distance <= cfg.maxForward ==> c.forward == (2.0 * distance) * alignment)
            && (alignment > 0.0 && 2.0 * distance >= cfg.maxForward ==> c.forward == cfg.maxForward * alignment)
  {
    hide Unwound;
    SignOf(cfg.kpAngular, Unwound(yawError));
  }

  lemma SignOf(gain: real, e: real)
    requires gain > 0.0
    ensures gain * e > 0.0 <==> e > 0.0
    ensures gain * e < 0.0 <==> e < 0.0
  {
    if e < 0.0 { assert gain * (-e) > 0.0; }
  }

  /** A waypoint is collected exactly when it is a step away from the last one, an interval has gone by,
      and nobody refuses. */
  lemma CollectsIff(cfg: Config, last: Last, waypoint: Point, a: Attempt)
    ensures Collects(cfg, last, waypoint, a) <==>
              && cfg.dist(waypoint, last.position) >= cfg.minStepDistance
              && a.now - last.time >= cfg.minCollectionInterval
              && a == Attempt(a.now, false, true, true, true, true, a.stamp)
  {
  }

  /** What each turn of the velocity loop does, decided by the reading: past the timeout the waypoint is
      skipped; within tolerance it is reached, and collected when the first or else the second attempt
      may; otherwise one command steers the robot to it. */
  lemma TurnDecides(cfg: Config, path: seq<Point>, start: Last, readings: nat -> Reading, n: nat)
    requires |path| >= 2 && Drive(cfg, path, start, readings, n).currentWp < |path|
    ensures var p, q, r := Drive(cfg, path, start, readings, n), Drive(cfg, path, start, readings, n + 1), readings(n);
            var target := path[p.currentWp];
            var d := cfg.dist(target, r.position);
            && (q.skipped == p.skipped + 1 <==> r.elapsed > 15.0)
            && (q.reached == p.reached + 1 <==> r.elapsed <= 15.0 && d < cfg.waypointTolerance)
            && (if r.elapsed <= 15.0 && d >= cfg.waypointTolerance then
                  q == p.(commands := p.commands + [Steer(cfg, d, r.yawError, r.alignment)])
                else q.currentWp == p.currentWp + 1 && q.commands == p.commands)
            && q.collected
               == if r.elapsed > 15.0 || d >= cfg.waypointTolerance then p.collected
                  else if Collects(cfg, p.last, target, r.first) then
                    p.collected + [Collected(p.currentWp, target, r.first.now, r.first.stamp)]
                  else if Collects(cfg, p.last, target, r.second) then
                    p.collected + [Collected(p.currentWp, target, r.second.now, r.second.stamp)]
                  else p.collected
  {
    hide Collects, Steer;
    var p := Drive(cfg, path, start, readings, n);
    assert |p.commands + [Steer(cfg, cfg.dist(path[p.currentWp], readings(n).position), readings(n).yawError,
                                readings(n).alignment)]| > |p.commands|;
  }

  /** Until the last waypoint every turn reaches one, skips one or sends a command. */
  lemma {:induction false} TurnsAreCounted(cfg: Config, path: seq<Point>, start: Last, readings: nat -> Reading, n: nat)
    requires |path| >= 2
    ensures var p := Drive(cfg, path, start, readings, n);
            && p.reached + p.skipped + |p.commands| <= n
            && (p.currentWp < |path| ==> p.reached + p.skipped + |p.commands| == n)
  {
    hide Collects, Steer;
    if n > 0 { TurnsAreCounted(cfg, path, start, readings, n - 1); }
  }

  /** In path tracking each waypoint is reached exactly when the robot arrives, and only then collected,
      when it may be. */
  lemma TrackDecides(
    cfg: Config, path: seq<Point>, start: Last, arrives: nat -> bool, attempts: nat -> Attempt, n: nat)
    requires n < |path|
    ensures var p := Track(cfg, path, start, arrives, attempts, n);
            var q := Track(cfg, path, start, arrives, attempts, n + 1);
            && q.reached == p.reached + One(arrives(n)) && q.skipped == p.skipped + One(!arrives(n))
            && q.collected
               == if arrives(n) && Collects(cfg, p.last, path[n], attempts(n)) then
                    p.collected + [Collected(n, path[n], attempts(n).now, attempts(n).stamp)]
                  else p.collected
  {
    hide Collects;
  }

  // ---------------------------------------------------------------- the methods

  /** The state `executeMission` captures in its checker. */
  class Checker {
    const cfg: Config
    var lastCollectedPos: Point
    var lastCollectTime: real

    ghost function View(): Last
      reads this
    {
      Last(lastCollectedPos, lastCollectTime)
    }

    constructor (cfg: Config, now: real)
      ensures this.cfg == cfg && View() == Last(Point(9999.0, 9999.0), now - 10.0)
    {
      this.cfg, lastCollectedPos, lastCollectTime := cfg, Point(9999.0, 9999.0), now - 10.0;
    }

    method TryCollect(waypoint: Point, a: Attempt) returns (ok: bool)
      ensures ok == Collects(cfg, View(), waypoint, a)
    {
      var distance := cfg.dist(waypoint, lastCollectedPos);
      var timeSince := a.now - lastCollectTime;
      if distance < cfg.minStepDistance || timeSince < cfg.minCollectionInterval {
        return false;
      }
      if a.cooling || !a.wanted {
        return false;
      }
      if !a.serviceReady {
        return false;
      }
      if !a.answered {
        return false;
      }
      ok := a.success;
    }

    method Call(waypoint: Point, a: Attempt) returns (ok: bool)
      modifies this
      ensures ok == Collects(cfg, old(View()), waypoint, a)
      ensures View() == if ok then Last(waypoint, a.stamp) else old(View())
    {
      ok := TryCollect(waypoint, a);
      if ok {
        lastCollectedPos := waypoint;
        lastCollectTime := a.stamp;
      }
    }
  }

  /** The two loops that bring the yaw error into range. */
  method UnwindYaw(error: real) returns (r: real)
    ensures r == Unwound(error)
  {
    r := error;
    while r > PI
      invariant Unwound(r) == Unwound(error)
      decreases r
    {
      r := r - 2.0 * PI;
    }
    while r < -PI
      invariant r <= PI && Unwound(r) == Unwound(error)
      decreases -r
    {
      r := r + 2.0 * PI;
    }
  }

  /** The command of one turn. */
  method SteerTo(cfg: Config, distance: real, rawError: real, alignment: real) returns (c: Command)
    ensures c == Steer(cfg, distance, rawError, alignment)
  {
    hide Unwound;
    var yawError := UnwindYaw(rawError);
    var forward := if alignment > 0.0 then Scaled(Min(cfg.maxForward, distance * 2.0), alignment) else 0.0;
    var angular := Clamp(Proportional(cfg.kpAngular, yawError), -cfg.maxAngular, cfg.maxAngular);
    c := Command(forward, 0.0, angular);
  }

  /** `executeVelocityCommands`: `maxLoops` is 5000 in the source. */
  method ExecuteVelocityCommands(path: seq<Point>, checker: Checker, readings: nat -> Reading, maxLoops: nat)
    returns (waypointsReached: nat, collected: seq<Collected>, published: seq<Command>)
    modifies checker
    ensures |path| < 2 ==>
              waypointsReached == 0 && collected == [] && published == [] && checker.View() == old(checker.View())
    ensures |path| >= 2 ==>
              var p := Drive(checker.cfg, path, old(checker.View()), readings, maxLoops);
              && waypointsReached == p.reached && collected == p.collected && checker.View() == p.last
              && published == p.commands + [STOP]
  {
    hide Collects, Steer;
    waypointsReached, collected, published := 0, [], [];
    if |path| < 2 {
      return;
    }
    ghost var start, cfg, skipped := checker.View(), checker.cfg, 0;
    var currentWp, loop := 1, 0;
    while loop < maxLoops && currentWp < |path|
      invariant 1 <= currentWp <= |path| && loop <= maxLoops
      invariant Drive(cfg, path, start, readings, loop)
             == Progress(currentWp, waypointsReached, skipped, collected, checker.View(), published)
    {
      var r, target := readings(loop), path[currentWp];
      var distance := checker.cfg.dist(target, r.position);
      if r.elapsed > WAYPOINT_TIMEOUT {
        currentWp, skipped := currentWp + 1, skipped + 1;
      } else if distance < checker.cfg.waypointTolerance {
        waypointsReached := waypointsReached + 1;
        var a := r.first;
        var ok := checker.Call(target, a);
        if !ok {
          a := r.second;
          ok := checker.Call(target, a);
        }
        if ok {
          collected := collected + [Collected(currentWp, target, a.now, a.stamp)];
        }
        currentWp := currentWp + 1;
      } else {
        var command := SteerTo(checker.cfg, distance, r.yawError, r.alignment);
        published := published + [command];
      }
      loop := loop + 1;
    }
    DriveStays(cfg, path, start, readings, loop, maxLoops);
    published := published + [STOP];
  }

  /** Once past the last waypoint the loop does nothing more. */
  lemma {:induction false} DriveStays(
    cfg: Config, path: seq<Point>, start: Last, readings: nat -> Reading, n: nat, end: nat)
    requires n <= end && (n < end ==> Drive(cfg, path, start, readings, n).currentWp >= |path|)
    ensures Drive(cfg, path, start, readings, end) == Drive(cfg, path, start, readings, n)
    decreases end
  {
    if n < end { DriveStays(cfg, path, start, readings, n, end - 1); }
  }

  /** `executePathTracking`. */
  method ExecutePathTracking(path: seq<Point>, checker: Checker, arrives: nat -> bool, attempts: nat -> Attempt)
    returns (waypointsReached: nat, collected: seq<Collected>)
    modifies checker
    ensures var p := Track(checker.cfg, path, old(checker.View()), arrives, attempts, |path|);
            waypointsReached == p.reached && collected == p.collected && checker.View() == p.last
  {
    hide Collects;
    waypointsReached, collected := 0, [];
    ghost var start, cfg, skipped := checker.View(), checker.cfg, 0;
    for i := 0 to |path|
      invariant Track(cfg, path, start, arrives, attempts, i)
             == Progress(i, waypointsReached, skipped, collected, checker.View(), [])
    {
      if !arrives(i) {
        skipped := skipped + 1;
      } else {
        waypointsReached := waypointsReached + 1;
        var a := attempts(i);
        var ok := checker.Call(path[i], a);
        if ok {
          collected := collected + [Collected(i, path[i], a.now, a.stamp)];
        }
      }
    }
  }
}
