/** The experience buffer, reward statistics and replanning decision of collection_feedback.cpp.

    Finite numbers are exact reals; what the reward makes of a division by zero is carried along as
    the infinities and the not-a-number of floating point. */
module Feedback {

  import opened Common
  import opened Reachability
  import E = Experience

  const REWARD_WINDOW_SIZE := 10

  datatype ChangeType = NewObstacle | SparseAreaDetected | HighDensityDetected | SensorFailure

  datatype Change = Change(kind: ChangeType, location: Point, severity: real)

  datatype Result = Result(
    executedPath: seq<Point>, attempted: nat, successful: nat, obstacles: seq<Point>, sparseAreas: seq<Point>,
    quality: real, dataValue: real, novelty: real, actualCost: real, timestamp: nat)

  datatype Weights = Weights(dataValue: real, coverage: real, efficiency: real, collisionPenalty: real)

  datatype Config = Config(
    uploadThreshold: nat, rewardDrop: real, envChangeSeverity: real, failureRate: real, weights: Weights,
    hasUploadCallback: bool, hasReplanCallback: bool)

  datatype Stats = Stats(total: Float, average: Float, least: Float, most: Float, count: nat)

  /** An `ExperienceMetadata`.  The severity in percent is None where its conversion to eight bits is
      undefined. */
  datatype Experience = Experience(
    vectors: E.Vectors, reward: Float, changeType: nat, severity: Option<nat>, timestamp: nat)

  /** The last two lines are what has been submitted, handed out and signalled so far. */
  datatype State = State(
    stats: Stats, window: seq<Float>, given: E.Given, buffer: seq<Experience>, totalUploaded: nat, totalReplans: nat,
    rewards: seq<Float>, experiences: seq<Experience>,
    batches: seq<seq<Experience>>, signals: seq<Change>)

  datatype Call = SetCurrent(state: seq<real>, action: seq<real>) | Submit(result: Result) | Upload

  // ---------------------------------------------------------------- floating point

  datatype Float = Fin(value: real) | Inf(positive: bool) | NaN

  function Add(a: Float, b: Float): Float {
    match (a, b)
    case (Fin(x), Fin(y)) => Fin(x + y)
    case (NaN, _) => NaN
    case (_, NaN) => NaN
    case (Inf(p), Inf(q)) => if p == q then a else NaN
    case (Inf(_), Fin(_)) => a
    case (Fin(_), Inf(_)) => b
  }

  function Over(a: Float, n: nat): Float
    requires n > 0
  {
    if a.Fin? then Fin(a.value / n as real) else a
  }

  function MulBy(a: Float, c: real): Float {
    match a
    case Fin(x) => Fin(Weighted(x, c))
    case Inf(p) => if c == 0.0 then NaN else Inf(p == (c > 0.0))
    case NaN => NaN
  }

  predicate Less(a: Float, b: Float) {
    match (a, b)
    case (Fin(x), Fin(y)) => x < y
    case (NaN, _) => false
    case (_, NaN) => false
    case (Inf(p), Inf(q)) => !p && q
    case (Inf(p), Fin(_)) => !p
    case (Fin(_), Inf(q)) => q
  }

  /** A strict order of the numbers and the two infinities, which are its ends; no number compares with
      nothing. */
  lemma LessIsOrder(a: Float, b: Float)
    ensures a.NaN? || b.NaN? ==> !Less(a, b)
    ensures !a.NaN? && !b.NaN? ==> Less(a, b) || Less(b, a) || a == b
    ensures !(Less(a, b) && Less(b, a)) && !Less(a, a)
    ensures !Less(Inf(true), b) && !Less(a, Inf(false))
    ensures a.Fin? && b.Fin? ==> (Less(a, b) <==> a.value < b.value)
  {
  }

  /** An infinity times a number is infinite, of the sign of the product, or for 0 no number. */
  lemma MulByIs(p: bool, c: real)
    ensures MulBy(Inf(p), c).NaN? <==> c == 0.0
    ensures Less(Fin(0.0), MulBy(Inf(p), c)) <==> (p && c > 0.0) || (!p && c < 0.0)
    ensures Less(MulBy(Inf(p), c), Fin(0.0)) <==> (p && c < 0.0) || (!p && c > 0.0)
  {
  }

  /** `std::min` and `std::max` return their first argument unless the comparison holds. */
  function MinOf(a: Float, b: Float): Float { if Less(b, a) then b else a }

  function MaxOf(a: Float, b: Float): Float { if Less(a, b) then b else a }

  // ---------------------------------------------------------------- the reward

  /** The share of the successes, where there is a cost; 0 / 0 and n / 0 when nothing was attempted. */
  function Efficiency(w: Weights, r: Result): Float {
    if r.actualCost <= 0.0 then Fin(0.0)
    else if r.attempted > 0 then MulBy(Fin(r.successful as real / r.attempted as real), w.efficiency)
    else MulBy(if r.successful > 0 then Inf(true) else NaN, w.efficiency)
  }

  function Weighted(value: real, weight: real): real { value * weight }

  function FailurePenalty(w: Weights, r: Result): real {
    if r.attempted > 0 then Weighted(FailureRate(r), w.collisionPenalty) else 0.0
  }

  /** `computeReward`; the repetition penalty is always a weight times 0. */
  function Reward(w: Weights, r: Result): Float {
    var valued := Fin(Weighted(r.dataValue, w.dataValue) + Weighted(r.novelty, w.coverage));
    Add(Add(Add(valued, Efficiency(w, r)), Fin(Weighted(r.quality, 2.0))), Fin(FailurePenalty(w, r)))
  }

  /** A reward is a number exactly when no cost was paid without an attempt. */
  lemma RewardIsNumberIff(w: Weights, r: Result)
    ensures Reward(w, r).Fin? <==> r.actualCost <= 0.0 || r.attempted > 0
  {
    hide FailurePenalty, Weighted;
  }

  /** The weighted sum: data value, novelty, the share of the successes where there is a cost, twice the
      quality, and the share of the failures.  A cost without an attempt gives an infinity of the
      sign of its weight when there is a success all the same, and otherwise no number. */
  lemma RewardIs(w: Weights, r: Result)
    ensures r.attempted > 0 ==>
              var share := r.successful as real / r.attempted as real;
              Reward(w, r) == Fin(r.dataValue * w.dataValue + r.novelty * w.coverage
                                  + (if r.actualCost > 0.0 then share * w.efficiency else 0.0)
                                  + r.quality * 2.0 + (1.0 - share) * w.collisionPenalty)
    ensures r.attempted == 0 && r.actualCost <= 0.0 ==>
              Reward(w, r) == Fin(r.dataValue * w.dataValue + r.novelty * w.coverage + r.quality * 2.0)
    ensures r.attempted == 0 && r.actualCost > 0.0 ==>
              Reward(w, r) == if r.successful == 0 || w.efficiency == 0.0 then NaN else Inf(w.efficiency > 0.0)
  {
  }

  // ---------------------------------------------------------------- the decisions

  function FailureRate(r: Result): real
    requires r.attempted > 0
  {
    1.0 - r.successful as real / r.attempted as real
  }

  predicate FailsTooOften(cfg: Config, r: Result) { r.attempted > 0 && FailureRate(r) > cfg.failureRate }

  predicate LooksBlind(r: Result) { r.quality < 0.3 && r.successful > 0 }

  function SumX(path: seq<Point>): real {
    if path == [] then 0.0 else SumX(path[..|path| - 1]) + path[|path| - 1].x
  }

  function SumY(path: seq<Point>): real {
    if path == [] then 0.0 else SumY(path[..|path| - 1]) + path[|path| - 1].y
  }

  function Centre(path: seq<Point>): Point {
    if path == [] then Point(0.0, 0.0)
    else Point(SumX(path) / |path| as real, SumY(path) / |path| as real)
  }

  function Changes(kind: ChangeType, places: seq<Point>, severity: real): (r: seq<Change>)
    ensures |r| == |places| && forall i :: 0 <= i < |r| ==> r[i] == Change(kind, places[i], severity)
  {
    seq(|places|, i requires 0 <= i < |places| => Change(kind, places[i], severity))
  }

  function Blind(r: Result): seq<Change> {
    if !LooksBlind(r) then []
    else
      var n := |r.executedPath|;
      [Change(SensorFailure, if n == 0 then Point(0.0, 0.0) else r.executedPath[n - 1], 0.9)]
  }

  function Failing(cfg: Config, r: Result): seq<Change> {
    if FailsTooOften(cfg, r) then [Change(HighDensityDetected, Centre(r.executedPath), FailureRate(r))] else []
  }

  /** `detectEnvironmentChanges` */
  function Detect(cfg: Config, r: Result): seq<Change> {
    Changes(NewObstacle, r.obstacles, 0.8) + Changes(SparseAreaDetected, r.sparseAreas, 0.6)
    + Blind(r) + Failing(cfg, r)
  }

  predicate Severe(cfg: Config, changes: seq<Change>) {
    exists i :: 0 <= i < |changes| && changes[i].severity >= cfg.envChangeSeverity
  }

  function Sum(s: seq<real>): real {
    if s == [] then 0.0 else Sum(s[..|s| - 1]) + s[|s| - 1]
  }

  function Accumulated(s: seq<Float>): Float {
    if s == [] then Fin(0.0) else Add(Accumulated(s[..|s| - 1]), s[|s| - 1])
  }

  predicate RewardDropped(cfg: Config, stats: Stats, window: seq<Float>) {
    window != [] && stats.count > REWARD_WINDOW_SIZE
    && Less(Over(Accumulated(window), |window|), MulBy(stats.average, 1.0 - cfg.rewardDrop))
  }

  /** `shouldReplan` */
  predicate ShouldReplan(cfg: Config, s: State, r: Result, changes: seq<Change>) {
    Severe(cfg, changes) || RewardDropped(cfg, s.stats, s.window) || FailsTooOften(cfg, r)
  }

  // ---------------------------------------------------------------- the experience

  /** The numbers of the enumerators of `ChangeType` that are used. */
  function Code(kind: ChangeType): nat {
    match kind
    case NewObstacle => 0
    case SparseAreaDetected => 2
    case HighDensityDetected => 3
    case SensorFailure => 5
  }

  /** The conversion of `severity * 100` to an unsigned byte. */
  function Percent(severity: real): Option<nat> {
    var p := severity * 100.0;
    if -1.0 < p < 256.0 then Some(if p < 0.0 then 0 else p.Floor) else None
  }

  /** `generateMetadata` */
  function Metadata(given: E.Given, r: Result, reward: Float, changes: seq<Change>): Experience {
    Experience(E.VectorsOf(given, r.executedPath), reward,
               if changes == [] then 0 else Code(changes[0].kind),
               if changes == [] then Some(0) else Percent(changes[0].severity), r.timestamp)
  }

  /** What a submission adds to the buffer. */
  function Made(cfg: Config, given: E.Given, r: Result): Experience {
    Metadata(given, r, Reward(cfg.weights, r), Detect(cfg, r))
  }

  /** The stored severity is a percentage as long as the failure rate has a threshold that is not
      negative, and 0 only when nothing changed or the rate is below one percent. */
  lemma SeverityIsPercent(cfg: Config, given: E.Given, r: Result)
    requires cfg.failureRate >= 0.0
    ensures var e, changes := Made(cfg, given, r), Detect(cfg, r);
            && e.severity.Some? && e.severity.value <= 100
            && (e.severity.value == 0 <==> changes == [] || changes[0].severity < 0.01)
  {
    hide FailureRate, Detect, LooksBlind, Reward;
    if Detect(cfg, r) != [] {
      FirstSeverity(cfg, r);
      if r.attempted > 0 { RateAtMostOne(r); }
    }
  }

  /** The first change found is stored by its number and severity in percent, rounded down; nothing found
      is stored as an obstacle of severity 0. */
  lemma StoredChangeIs(cfg: Config, given: E.Given, r: Result)
    ensures var e := Made(cfg, given, r);
            && e.timestamp == r.timestamp && e.reward == Reward(cfg.weights, r)
            && (Detect(cfg, r) == [] ==> e.changeType == 0 && e.severity == Some(0))
            && (r.obstacles != [] ==> e.changeType == 0 && e.severity == Some(80))
            && (r.obstacles == [] && r.sparseAreas != [] ==> e.changeType == 2 && e.severity == Some(60))
            && (r.obstacles == [] && r.sparseAreas == [] && LooksBlind(r) ==>
                  e.changeType == 5 && e.severity == Some(90))
            && (r.obstacles == [] && r.sparseAreas == [] && !LooksBlind(r) && Detect(cfg, r) != [] ==>
                  && e.changeType == 3 && r.attempted > 0
                  && var rate := FailureRate(r);
                     && (rate >= 0.0 ==>
                           && e.severity.Some?
                           && e.severity.value as real <= rate * 100.0 < e.severity.value as real + 1.0)
                     && (-0.01 < rate < 0.0 ==> e.severity == Some(0)) && (rate <= -0.01 ==> e.severity.None?))
  {
    hide FailureRate, Reward, Detect, Percent, E.VectorsOf;
    FirstChange(cfg, r);
    Percents();
    if FailsTooOften(cfg, r) {
      RateAtMostOne(r);
      PercentOf(FailureRate(r));
    }
  }

  lemma Percents()
    ensures Percent(0.8) == Some(80) && Percent(0.6) == Some(60) && Percent(0.9) == Some(90)
  {
  }

  lemma PercentOf(rate: real)
    requires rate <= 1.0
    ensures var p := Percent(rate);
            && (rate >= 0.0 ==> p.Some? && p.value as real <= rate * 100.0 < p.value as real + 1.0)
            && (-0.01 < rate < 0.0 ==> p == Some(0)) && (rate <= -0.01 ==> p.None?)
  {
  }

  /** Which change comes first. */
  lemma FirstChange(cfg: Config, r: Result)
    ensures Detect(cfg, r) == [] <==>
              r.obstacles == [] && r.sparseAreas == [] && !LooksBlind(r) && !FailsTooOften(cfg, r)
    ensures Detect(cfg, r) != [] ==>
              var c := Detect(cfg, r)[0];
              if r.obstacles != [] then c.kind.NewObstacle? && c.severity == 0.8
              else if r.sparseAreas != [] then c.kind.SparseAreaDetected? && c.severity == 0.6
              else if LooksBlind(r) then c.kind.SensorFailure? && c.severity == 0.9
              else c.kind.HighDensityDetected? && FailsTooOften(cfg, r) && c.severity == FailureRate(r)
  {
    hide FailureRate, Centre;
  }

  lemma RateAtMostOne(r: Result)
    requires r.attempted > 0
    ensures FailureRate(r) <= 1.0
  {
  }

  // ---------------------------------------------------------------- the calls

  function Counted(s: Stats, reward: Float): Stats {
    var total, count := Add(s.total, reward), s.count + 1;
    Stats(total, Over(total, count), MinOf(s.least, reward), MaxOf(s.most, reward), count)
  }

  function Slid(window: seq<Float>, reward: Float): seq<Float> {
    var w := window + [reward];
    if |w| > REWARD_WINDOW_SIZE then w[1..] else w
  }

  /** `uploadExperiences`: without a callback the buffer is thrown away. */
  function Uploaded(cfg: Config, s: State): State {
    if s.buffer == [] then s
    else if cfg.hasUploadCallback then
      s.(batches := s.batches + [s.buffer], totalUploaded := s.totalUploaded + |s.buffer|, buffer := [])
    else s.(buffer := [])
  }

  /** The bookkeeping half of `submitCollectionResult`. */
  function Stored(cfg: Config, s: State, e: Experience): State {
    var t := s.(stats := Counted(s.stats, e.reward), window := Slid(s.window, e.reward),
                rewards := s.rewards + [e.reward], experiences := s.experiences + [e], buffer := s.buffer + [e]);
    if |t.buffer| >= cfg.uploadThreshold then Uploaded(cfg, t) else t
  }

  /** The replanning half. */
  function Decided(cfg: Config, s: State, r: Result, changes: seq<Change>): State {
    if !ShouldReplan(cfg, s, r, changes) then s
    else
      var t := s.(totalReplans := s.totalReplans + 1);
      if cfg.hasReplanCallback && changes != [] then t.(signals := t.signals + [changes[0]]) else t
  }

  function Apply(cfg: Config, s: State, c: Call): State {
    match c
    case SetCurrent(state, action) => s.(given := E.Set(state, action))
    case Submit(r) => Decided(cfg, Stored(cfg, s, Made(cfg, s.given, r)), r, Detect(cfg, r))
    case Upload => Uploaded(cfg, s)
  }

  const NOTHING_YET := Stats(Fin(0.0), Fin(0.0), Fin(0.0), Fin(0.0), 0)

  const NOTHING_GIVEN := E.Given([], [], [])

  function Init(): State { State(NOTHING_YET, [], NOTHING_GIVEN, [], 0, 0, [], [], [], []) }

  function Run(cfg: Config, calls: seq<Call>): State
    decreases |calls|
  {
    if calls == [] then Init() else Apply(cfg, Run(cfg, calls[..|calls| - 1]), calls[|calls| - 1])
  }

  // ---------------------------------------------------------------- what the state should be

  function Newest(rewards: seq<Float>): seq<Float> {
    if |rewards| <= REWARD_WINDOW_SIZE then rewards else rewards[|rewards| - REWARD_WINDOW_SIZE..]
  }

  /** The least of the rewards and 0. */
  function LeastOrZero(s: seq<Float>): Float {
    if s == [] then Fin(0.0) else MinOf(LeastOrZero(s[..|s| - 1]), s[|s| - 1])
  }

  function MostOrZero(s: seq<Float>): Float {
    if s == [] then Fin(0.0) else MaxOf(MostOrZero(s[..|s| - 1]), s[|s| - 1])
  }

  function StatsOf(rewards: seq<Float>): Stats {
    var n := |rewards|;
    Stats(Accumulated(rewards), if n == 0 then Fin(0.0) else Over(Accumulated(rewards), n),
          LeastOrZero(rewards), MostOrZero(rewards), n)
  }

  /** The vectors last given. */
  function GivenBy(calls: seq<Call>): E.Given {
    if calls == [] then NOTHING_GIVEN
    else
      match calls[|calls| - 1]
      case SetCurrent(state, action) => E.Set(state, action)
      case _ => GivenBy(calls[..|calls| - 1])
  }

  /** Every experience submitted, in order, each with the vectors given before it. */
  function Submitted(cfg: Config, calls: seq<Call>): seq<Experience>
    decreases |calls|
  {
    if calls == [] then []
    else
      var before := calls[..|calls| - 1];
      match calls[|calls| - 1]
      case Submit(r) => Submitted(cfg, before) + [Made(cfg, GivenBy(before), r)]
      case _ => Submitted(cfg, before)
  }

  ghost predicate Inv(cfg: Config, s: State) {
    && s.stats == StatsOf(s.rewards) && s.window == Newest(s.rewards)
    && (s.buffer == [] || |s.buffer| < cfg.uploadThreshold)
    && s.totalUploaded == |Flatten(s.batches)| && |s.experiences| == |s.rewards|
    && (cfg.hasUploadCallback ==> Flatten(s.batches) + s.buffer == s.experiences)
    && (forall i :: 0 <= i < |s.batches| ==> s.batches[i] != [])
  }

  lemma StatsStep(rewards: seq<Float>, reward: Float)
    ensures Counted(StatsOf(rewards), reward) == StatsOf(rewards + [reward])
    ensures Slid(Newest(rewards), reward) == Newest(rewards + [reward])
  {
    hide Add, Over, MinOf, MaxOf;
    assert (rewards + [reward])[..|rewards|] == rewards;
  }

  lemma FlattenOne<T>(batch: seq<T>)
    ensures Flatten([batch]) == batch
  {
    assert [batch][1..] == [];
    Assoc(batch, [], []);
  }

  lemma UploadedKeeps(cfg: Config, s: State)
    requires s.totalUploaded == |Flatten(s.batches)|
    requires cfg.hasUploadCallback ==> Flatten(s.batches) + s.buffer == s.experiences
    requires forall i :: 0 <= i < |s.batches| ==> s.batches[i] != []
    ensures var t := Uploaded(cfg, s);
            && t.totalUploaded == |Flatten(t.batches)|
            && (cfg.hasUploadCallback ==> Flatten(t.batches) + t.buffer == s.experiences)
            && (forall i :: 0 <= i < |t.batches| ==> t.batches[i] != [])
            && t == s.(buffer := [], totalUploaded := t.totalUploaded, batches := t.batches)
  {
    FlattenAppend(s.batches, [s.buffer]);
    FlattenOne(s.buffer);
    Assoc(Flatten(s.batches) + s.buffer, [], []);
  }

  lemma StoredKeepsInv(cfg: Config, s: State, e: Experience)
    requires Inv(cfg, s)
    ensures Inv(cfg, Stored(cfg, s, e))
    ensures var t := Stored(cfg, s, e); t.given == s.given && t.experiences == s.experiences + [e]
  {
    hide StatsOf, Newest, Counted, Slid, Uploaded, Flatten;
    StatsStep(s.rewards, e.reward);
    Assoc(Flatten(s.batches), s.buffer, [e]);
    var t := s.(stats := Counted(s.stats, e.reward), window := Slid(s.window, e.reward),
                rewards := s.rewards + [e.reward], experiences := s.experiences + [e], buffer := s.buffer + [e]);
    UploadedKeeps(cfg, t);
  }

  lemma DecidedLeaves(cfg: Config, s: State, r: Result, changes: seq<Change>)
    ensures var t := Decided(cfg, s, r, changes);
            t == s.(totalReplans := t.totalReplans, signals := t.signals)
  {
    hide ShouldReplan;
  }

  lemma {:induction false} RunKeepsInv(cfg: Config, calls: seq<Call>)
    ensures Inv(cfg, Run(cfg, calls))
    ensures Run(cfg, calls).given == GivenBy(calls) && Run(cfg, calls).experiences == Submitted(cfg, calls)
    decreases |calls|
  {
    hide Stored, Decided, Detect, StatsOf, Newest, Flatten, Made;
    if calls == [] {
      InitInv(cfg);
    } else {
      var s, c := Run(cfg, calls[..|calls| - 1]), calls[|calls| - 1];
      RunKeepsInv(cfg, calls[..|calls| - 1]);
      match c
      case Submit(r) =>
        var e := Made(cfg, s.given, r);
        StoredKeepsInv(cfg, s, e);
        DecidedLeaves(cfg, Stored(cfg, s, e), r, Detect(cfg, r));
      case Upload => UploadedKeeps(cfg, s);
      case SetCurrent(_, _) =>
    }
  }

  lemma InitInv(cfg: Config)
    ensures Inv(cfg, Init())
  {
  }

  // ---------------------------------------------------------------- the results: buffer and rewards

  /** With an upload callback the batches handed to it, followed by the buffer, are every experience
      ever submitted, in order and with the vectors given at the time; nothing is uploaded twice. */
  lemma NothingLost(cfg: Config, calls: seq<Call>)
    requires cfg.hasUploadCallback
    ensures var s := Run(cfg, calls);
            && Flatten(s.batches) + s.buffer == Submitted(cfg, calls)
            && s.totalUploaded == |Submitted(cfg, calls)| - |s.buffer|
            && (s.buffer == [] || |s.buffer| < cfg.uploadThreshold)
            && (forall i :: 0 <= i < |s.batches| ==> s.batches[i] != [])
  {
    hide StatsOf, Newest, Flatten;
    RunKeepsInv(cfg, calls);
  }

  lemma {:induction false} GivenTwice(calls: seq<Call>)
    ensures GivenBy(calls).last == GivenBy(calls).state
  {
    if calls != [] { GivenTwice(calls[..|calls| - 1]); }
  }

  /** No experience of any run holds a transition: the next state is the state itself, or is missing
      and the state is a stand-in or missing too. */
  lemma {:induction false} NextStateIsState(cfg: Config, calls: seq<Call>, i: nat)
    requires i < |Submitted(cfg, calls)|
    ensures var v := Submitted(cfg, calls)[i].vectors;
            v.nextState == v.state || (v.nextState == [] && |v.state| == 2)
    decreases |calls|
  {
    hide E.Quantize, Reward, Detect;
    var before := calls[..|calls| - 1];
    if i < |Submitted(cfg, before)| {
      NextStateIsState(cfg, before, i);
    } else {
      GivenTwice(before);
      E.NextStateIs(GivenBy(before), calls[|calls| - 1].result.executedPath);
    }
  }

  /** Reading the next state of a submitted experience stays inside it exactly when a state was given
      before the submission, or no path was executed. */
  lemma NextStateReadableIff(cfg: Config, calls: seq<Call>, r: Result)
    ensures var e := Made(cfg, Run(cfg, calls).given, r);
            |e.vectors.state| <= |e.vectors.nextState| <==> GivenBy(calls).state != [] || r.executedPath == []
  {
    hide Run, Reward, Detect, E.VectorsOf;
    RunKeepsInv(cfg, calls);
    GivenTwice(calls);
    E.NextStateIs(GivenBy(calls), r.executedPath);
  }

  ghost predicate AllNumbers(s: seq<Float>) { forall i :: 0 <= i < |s| ==> s[i].Fin? }

  function Values(s: seq<Float>): (v: seq<real>)
    requires AllNumbers(s)
    ensures |v| == |s| && forall i :: 0 <= i < |v| ==> v[i] == s[i].value
  {
    seq(|s|, i requires 0 <= i < |s| => s[i].value)
  }

  /** A sum is a number exactly when every term is, and then it is their sum. */
  lemma {:induction false} AccumulatedIs(s: seq<Float>)
    ensures Accumulated(s).Fin? <==> AllNumbers(s)
    ensures AllNumbers(s) ==> Accumulated(s) == Fin(Sum(Values(s)))
  {
    if s != [] {
      var init, last := s[..|s| - 1], s[|s| - 1];
      AccumulatedIs(init);
      assert AllNumbers(s) <==> AllNumbers(init) && last.Fin? by { assert s == init + [last]; }
      if AllNumbers(s) { assert Values(s)[..|s| - 1] == Values(init); }
    }
  }

  /** A sum with an infinity is that infinity, unless the other one or no number is among its terms. */
  lemma {:induction false} AccumulatedIsNot(s: seq<Float>)
    ensures Accumulated(s).NaN? <==> NaN in s || (Inf(true) in s && Inf(false) in s)
    ensures forall p :: Accumulated(s) == Inf(p) <==> Inf(p) in s && NaN !in s && Inf(!p) !in s
  {
    if s != [] {
      var init, last := s[..|s| - 1], s[|s| - 1];
      AccumulatedIsNot(init);
      assert s == init + [last];
    }
  }

  /** One submission that pays a cost without an attempt takes the total and the average away for
      good: they are numbers exactly when the reward of every submission is. */
  lemma AverageIsNumberIff(cfg: Config, calls: seq<Call>)
    ensures var s := Run(cfg, calls);
            && (s.stats.total.Fin? <==> AllNumbers(s.rewards))
            && (s.stats.average.Fin? <==> AllNumbers(s.rewards))
  {
    hide Run, Newest, Accumulated;
    RunKeepsInv(cfg, calls);
    AccumulatedIs(Run(cfg, calls).rewards);
  }

  /** The window is the last ten rewards, or all of them; and as long as all rewards are numbers the
      statistics are theirs, with least <= average <= most. */
  lemma RewardStatistics(cfg: Config, calls: seq<Call>)
    ensures var s := Run(cfg, calls); s.window == Newest(s.rewards) && s.stats.count == |s.rewards|
    ensures var s := Run(cfg, calls);
            AllNumbers(s.rewards) ==>
              var v := Values(s.rewards);
              && s.stats == Stats(Fin(Sum(v)), Fin(Mean(v)), Fin(Least(v)), Fin(Most(v)), |v|)
              && Mean(v) * |v| as real == Sum(v)
              && Least(v) <= Mean(v) <= Most(v)
              && forall i :: 0 <= i < |v| ==> Least(v) <= v[i] <= Most(v)
  {
    hide Run, AllNumbers, StatsOf, Newest, Sum, Mean, Least, Most, Flatten, Submitted;
    RunKeepsInv(cfg, calls);
    var rewards := Run(cfg, calls).rewards;
    CountOf(rewards);
    if AllNumbers(rewards) { StatisticsOf(rewards); }
  }

  lemma CountOf(rewards: seq<Float>)
    ensures StatsOf(rewards).count == |rewards|
  {
  }

  lemma StatisticsOf(rewards: seq<Float>)
    requires AllNumbers(rewards)
    ensures var v := Values(rewards);
            && StatsOf(rewards) == Stats(Fin(Sum(v)), Fin(Mean(v)), Fin(Least(v)), Fin(Most(v)), |v|)
            && Mean(v) * |v| as real == Sum(v)
            && Least(v) <= Mean(v) <= Most(v)
            && forall i :: 0 <= i < |v| ==> Least(v) <= v[i] <= Most(v)
  {
    hide Sum, LeastOrZero, MostOrZero, Least, Most, Accumulated;
    var v := Values(rewards);
    AccumulatedIs(rewards);
    BoundsAre(rewards);
    BoundsHold(v);
    SumBetween(v, Least(v), Most(v));
    MeanBetween(v);
  }

  function Mean(v: seq<real>): real { if v == [] then 0.0 else Sum(v) / |v| as real }

  function Least(v: seq<real>): real { if v == [] then 0.0 else Min(Least(v[..|v| - 1]), v[|v| - 1]) }

  function Most(v: seq<real>): real { if v == [] then 0.0 else Max(Most(v[..|v| - 1]), v[|v| - 1]) }

  lemma {:induction false} BoundsAre(s: seq<Float>)
    requires AllNumbers(s)
    ensures LeastOrZero(s) == Fin(Least(Values(s))) && MostOrZero(s) == Fin(Most(Values(s)))
  {
    if s != [] {
      BoundsAre(s[..|s| - 1]);
      assert Values(s)[..|s| - 1] == Values(s[..|s| - 1]);
    }
  }

  lemma {:induction false} BoundsHold(s: seq<real>)
    ensures Least(s) <= 0.0 <= Most(s)
    ensures forall i :: 0 <= i < |s| ==> Least(s) <= s[i] <= Most(s)
  {
    if s != [] { BoundsHold(s[..|s| - 1]); }
  }

  lemma MeanBetween(v: seq<real>)
    requires Least(v) * |v| as real <= Sum(v) <= Most(v) * |v| as real && Least(v) <= 0.0 <= Most(v)
    ensures Least(v) <= Mean(v) <= Most(v) && Mean(v) * |v| as real == Sum(v)
  {
    hide Least, Most;
    if v != [] { AverageBetween(Sum(v), |v| as real, Least(v), Most(v)); }
  }

  lemma {:induction false} SumBetween(s: seq<real>, lo: real, hi: real)
    requires forall i :: 0 <= i < |s| ==> lo <= s[i] <= hi
    ensures lo * |s| as real <= Sum(s) <= hi * |s| as real
  {
    if s != [] {
      var n := |s| - 1;
      var init := s[..n];
      forall i | 0 <= i < n ensures lo <= init[i] <= hi { assert init[i] == s[i]; }
      SumBetween(init, lo, hi);
      OneMore(lo, n);
      OneMore(hi, n);
    }
  }

  lemma OneMore(x: real, n: nat)
    ensures x * (n + 1) as real == x * n as real + x
  {
  }

  lemma AverageBetween(sum: real, n: real, lo: real, hi: real)
    requires n > 0.0 && lo * n <= sum <= hi * n
    ensures lo <= sum / n <= hi && (sum / n) * n == sum
  {
    var a := sum / n;
    assert a * n == sum;
    TimesOrder(a, lo, n);
    TimesOrder(hi, a, n);
  }

  lemma TimesOrder(a: real, b: real, n: real)
    requires n > 0.0
    ensures a < b <==> a * n < b * n
  {
    if a < b {
      assert (b - a) * n > 0.0;
    } else if a > b {
      assert (a - b) * n > 0.0;
    }
  }

  /** The reported minimum starts from 0, so it is a reward that was given exactly when some reward
      was not positive. */
  lemma MinimumIsARewardIff(cfg: Config, calls: seq<Call>)
    requires AllNumbers(Run(cfg, calls).rewards) && Run(cfg, calls).rewards != []
    ensures var s := Run(cfg, calls);
            var v := Values(s.rewards);
            s.stats.least.Fin? && (s.stats.least.value in v <==> exists i :: 0 <= i < |v| && v[i] <= 0.0)
  {
    hide Run, Sum, Newest;
    RunKeepsInv(cfg, calls);
    var rewards := Run(cfg, calls).rewards;
    var v := Values(rewards);
    BoundsAre(rewards);
    BoundsHold(v);
    LeastIn(v);
  }

  lemma {:induction false} LeastIn(s: seq<real>)
    ensures Least(s) == 0.0 || Least(s) in s
    ensures (exists i :: 0 <= i < |s| && s[i] <= 0.0) ==> Least(s) in s
  {
    if s != [] {
      var before, last := s[..|s| - 1], s[|s| - 1];
      LeastIn(before);
      BoundsHold(before);
      assert s == before + [last];
      if i :| 0 <= i < |s| && s[i] <= 0.0 && last > 0.0 {
        assert before[i] <= 0.0;
      }
    }
  }

  // ---------------------------------------------------------------- the results: what is detected

  /** The changes found: each new obstacle, each sparse area, poor quality in spite of successes at the
      end of the path, and too many failures at its centre; nothing else. */
  lemma DetectsIff(cfg: Config, r: Result, c: Change)
    ensures c in Detect(cfg, r) <==>
              || (c.kind.NewObstacle? && c.severity == 0.8 && c.location in r.obstacles)
              || (c.kind.SparseAreaDetected? && c.severity == 0.6 && c.location in r.sparseAreas)
              || (c.kind.SensorFailure? && c.severity == 0.9 && r.quality < 0.3 && r.successful > 0
                  && c.location
                     == if r.executedPath == [] then Point(0.0, 0.0) else r.executedPath[|r.executedPath| - 1])
              || (c.kind.HighDensityDetected? && c.location == Centre(r.executedPath)
                  && r.attempted > 0 && c.severity == 1.0 - r.successful as real / r.attempted as real
                  && c.severity > cfg.failureRate)
  {
    hide Centre;
    var obstacles, sparse := Changes(NewObstacle, r.obstacles, 0.8), Changes(SparseAreaDetected, r.sparseAreas, 0.6);
    assert c in Detect(cfg, r) <==> c in obstacles || c in sparse || c in Blind(r) || c in Failing(cfg, r);
    ChangesIff(NewObstacle, r.obstacles, 0.8, c);
    ChangesIff(SparseAreaDetected, r.sparseAreas, 0.6, c);
  }

  lemma ChangesIff(kind: ChangeType, places: seq<Point>, severity: real, c: Change)
    ensures c in Changes(kind, places, severity) <==> c.kind == kind && c.severity == severity && c.location in places
  {
    var all := Changes(kind, places, severity);
    if c.kind == kind && c.severity == severity && c.location in places {
      var i :| 0 <= i < |places| && places[i] == c.location;
      assert all[i] == c;
    }
  }

  /** They come in this order, one for each place. */
  lemma DetectOrder(cfg: Config, r: Result, i: nat)
    ensures var changes, n, m := Detect(cfg, r), |r.obstacles|, |r.sparseAreas|;
            && |changes| == n + m + |Blind(r)| + |Failing(cfg, r)| && |Blind(r)| <= 1 && |Failing(cfg, r)| <= 1
            && (i < n ==> changes[i].kind.NewObstacle? && changes[i].location == r.obstacles[i])
            && (n <= i < n + m ==> changes[i].kind.SparseAreaDetected? && changes[i].location == r.sparseAreas[i - n])
            && (n + m <= i < |changes| ==> changes[i].kind.SensorFailure? || changes[i].kind.HighDensityDetected?)
            && (n + m + 1 == i < |changes| ==>
                  changes[i - 1].kind.SensorFailure? && changes[i].kind.HighDensityDetected?)
  {
    hide Centre, FailureRate;
  }

  function Xs(path: seq<Point>): seq<real> { seq(|path|, i requires 0 <= i < |path| => path[i].x) }

  function Ys(path: seq<Point>): seq<real> { seq(|path|, i requires 0 <= i < |path| => path[i].y) }

  lemma {:induction false} SumsOfPath(path: seq<Point>)
    ensures SumX(path) == Sum(Xs(path)) && SumY(path) == Sum(Ys(path))
  {
    if path != [] {
      SumsOfPath(path[..|path| - 1]);
      assert Xs(path)[..|path| - 1] == Xs(path[..|path| - 1]) && Ys(path)[..|path| - 1] == Ys(path[..|path| - 1]);
    }
  }

  /** The centre is the mean of the points, in either coordinate, and the origin without any. */
  lemma CentreIsMean(path: seq<Point>)
    ensures Centre(path) == Point(Mean(Xs(path)), Mean(Ys(path)))
  {
    SumsOfPath(path);
  }

  /** Finding a change severe is a matter of the kinds found and the threshold. */
  lemma SevereIff(cfg: Config, r: Result)
    ensures Severe(cfg, Detect(cfg, r)) <==>
              || (r.obstacles != [] && 0.8 >= cfg.envChangeSeverity)
              || (r.sparseAreas != [] && 0.6 >= cfg.envChangeSeverity)
              || (r.quality < 0.3 && r.successful > 0 && 0.9 >= cfg.envChangeSeverity)
              || (r.attempted > 0
                  && var rate := 1.0 - r.successful as real / r.attempted as real;
                     rate > cfg.failureRate && rate >= cfg.envChangeSeverity)
  {
    hide Detect, Centre;
    var changes, thr := Detect(cfg, r), cfg.envChangeSeverity;
    if Severe(cfg, changes) {
      var i :| 0 <= i < |changes| && changes[i].severity >= thr;
      DetectsIff(cfg, r, changes[i]);
    }
    forall c ensures c in changes && c.severity >= thr ==> Severe(cfg, changes) { Found(cfg, r, c); }
    var n := |r.executedPath|;
    if r.obstacles != [] { DetectsIff(cfg, r, Change(NewObstacle, r.obstacles[0], 0.8)); }
    if r.sparseAreas != [] { DetectsIff(cfg, r, Change(SparseAreaDetected, r.sparseAreas[0], 0.6)); }
    DetectsIff(cfg, r, Change(SensorFailure, if n == 0 then Point(0.0, 0.0) else r.executedPath[n - 1], 0.9));
    if r.attempted > 0 { DetectsIff(cfg, r, Change(HighDensityDetected, Centre(r.executedPath), FailureRate(r))); }
  }

  lemma Found(cfg: Config, r: Result, c: Change)
    ensures c in Detect(cfg, r) && c.severity >= cfg.envChangeSeverity ==> Severe(cfg, Detect(cfg, r))
  {
    hide Detect;
  }

  // ---------------------------------------------------------------- the results: replanning

  /** The newest ten, once there are more. */
  function LastTen(v: seq<real>): seq<real> { if |v| <= 10 then v else v[|v| - 10..] }

  /** The rewards have dropped exactly when there are more than ten and the mean of the last ten lies
      below that of all by more than the share allowed. */
  lemma RewardDroppedIff(cfg: Config, calls: seq<Call>)
    requires AllNumbers(Run(cfg, calls).rewards)
    ensures var s := Run(cfg, calls);
            var v := Values(s.rewards);
            RewardDropped(cfg, s.stats, s.window) <==>
              |v| > 10 && Mean(LastTen(v)) < Mean(v) * (1.0 - cfg.rewardDrop)
  {
    hide Run, Sum, Accumulated, LeastOrZero, MostOrZero, Flatten, Submitted;
    RunKeepsInv(cfg, calls);
    var s := Run(cfg, calls);
    var v := Values(s.rewards);
    AccumulatedIs(s.rewards);
    WindowIs(s.rewards);
    AccumulatedIs(s.window);
  }

  lemma WindowIs(rewards: seq<Float>)
    requires AllNumbers(rewards)
    ensures AllNumbers(Newest(rewards)) && Values(Newest(rewards)) == LastTen(Values(rewards))
  {
  }

  /** When a submission leads to a replan, on the result and the rewards: a severe change, a drop of the
      rewards, or too many failures.  It is signalled by the first change if there is one. */
  lemma ReplansIff(cfg: Config, calls: seq<Call>, r: Result)
    ensures var s, t := Run(cfg, calls), Run(cfg, calls + [Submit(r)]);
            var replan := || Severe(cfg, Detect(cfg, r)) || RewardDropped(cfg, t.stats, t.window)
                          || (r.attempted > 0 && 1.0 - r.successful as real / r.attempted as real > cfg.failureRate);
            && t.totalReplans == s.totalReplans + One(replan)
            && t.signals == s.signals + if replan && cfg.hasReplanCallback && Detect(cfg, r) != [] then
                                          [Detect(cfg, r)[0]]
                                        else []
  {
    hide Run, Stored, Severe, RewardDropped, Detect;
    CallsAppend(cfg, calls, Submit(r));
    var s := Run(cfg, calls);
    StoredLeaves(cfg, s, Made(cfg, s.given, r));
  }

  /** There are no more signals than replans and no more replans than submissions. */
  lemma {:induction false} ReplansAreCounted(cfg: Config, calls: seq<Call>)
    ensures var s := Run(cfg, calls); |s.signals| <= s.totalReplans <= |s.rewards|
    decreases |calls|
  {
    if calls != [] {
      hide Apply;
      ReplansAreCounted(cfg, calls[..|calls| - 1]);
      ReplansStep(cfg, Run(cfg, calls[..|calls| - 1]), calls[|calls| - 1]);
    }
  }

  lemma ReplansStep(cfg: Config, s: State, c: Call)
    ensures var t := Apply(cfg, s, c);
            |t.signals| - |s.signals| <= t.totalReplans - s.totalReplans <= |t.rewards| - |s.rewards|
  {
    hide ShouldReplan, Detect, Made, Counted, Slid;
  }

  /** A submission is handed out, with all that was waiting, exactly when they are as many as the
      threshold; otherwise it waits behind them. */
  lemma UploadsIff(cfg: Config, calls: seq<Call>, r: Result)
    ensures var s, t := Run(cfg, calls), Run(cfg, calls + [Submit(r)]);
            var waiting := s.buffer + [Made(cfg, s.given, r)];
            && t.buffer == (if |waiting| >= cfg.uploadThreshold then [] else waiting)
            && t.batches == s.batches + if |waiting| >= cfg.uploadThreshold && cfg.hasUploadCallback then [waiting]
                                        else []
  {
    hide Run, ShouldReplan, Detect, Made;
    CallsAppend(cfg, calls, Submit(r));
  }

  /** Without an upload callback nothing is ever handed out or counted as such. */
  lemma {:induction false} NothingWithoutCallback(cfg: Config, calls: seq<Call>)
    requires !cfg.hasUploadCallback
    ensures Run(cfg, calls).batches == [] && Run(cfg, calls).totalUploaded == 0
    decreases |calls|
  {
    if calls != [] {
      hide ShouldReplan, Detect, Made;
      NothingWithoutCallback(cfg, calls[..|calls| - 1]);
    }
  }

  lemma CallsAppend(cfg: Config, calls: seq<Call>, c: Call)
    ensures Run(cfg, calls + [c]) == Apply(cfg, Run(cfg, calls), c)
  {
    assert (calls + [c])[..|calls|] == calls;
  }

  /** A failure rate above its threshold always reaches the replan callback, with a change to show. */
  lemma HighFailureIsSignalled(cfg: Config, s: State, r: Result)
    requires cfg.hasReplanCallback && FailsTooOften(cfg, r)
    ensures var t, changes := Apply(cfg, s, Submit(r)), Detect(cfg, r);
            && changes != [] && t.signals == s.signals + [changes[0]] && t.totalReplans == s.totalReplans + 1
            && exists i :: 0 <= i < |changes| && changes[i].kind.HighDensityDetected?
  {
    hide Stored, Severe, RewardDropped, FailureRate, Centre, Made;
    StoredLeaves(cfg, s, Made(cfg, s.given, r));
    var changes := Detect(cfg, r);
    assert changes[|changes| - 1].kind.HighDensityDetected?;
  }

  lemma StoredLeaves(cfg: Config, s: State, e: Experience)
    ensures Stored(cfg, s, e).signals == s.signals && Stored(cfg, s, e).totalReplans == s.totalReplans
  {
  }

  /** A replan that is counted but never signalled: exactly when nothing changed in the environment
      and only the rewards dropped. */
  lemma SilentReplanIff(cfg: Config, s: State, r: Result)
    requires cfg.hasReplanCallback
    ensures var t, stored := Apply(cfg, s, Submit(r)), Stored(cfg, s, Made(cfg, s.given, r));
            t.totalReplans > s.totalReplans && t.signals == s.signals
            <==> Detect(cfg, r) == [] && RewardDropped(cfg, stored.stats, stored.window)
  {
    hide Stored, RewardDropped, FailureRate, Centre, Made;
    StoredLeaves(cfg, s, Made(cfg, s.given, r));
    var stored, changes := Stored(cfg, s, Made(cfg, s.given, r)), Detect(cfg, r);
    if changes == [] {
      assert !FailsTooOften(cfg, r);
    } else {
      assert |s.signals + [changes[0]]| != |s.signals|;
    }
  }

  /** The change shown to the callback is the first, which is meant to be the most severe.  It is so
      exactly when no later kind outranks the first kind present. */
  lemma FirstIsMostSevereIff(cfg: Config, r: Result)
    requires Detect(cfg, r) != []
    ensures var changes := Detect(cfg, r);
            (forall i :: 0 <= i < |changes| ==> changes[i].severity <= changes[0].severity)
            <==>
            && (LooksBlind(r) ==> r.obstacles == [] && r.sparseAreas == [])
            && (FailsTooOften(cfg, r) && r.obstacles != [] ==> FailureRate(r) <= 0.8)
            && (FailsTooOften(cfg, r) && r.obstacles == [] && r.sparseAreas != [] ==> FailureRate(r) <= 0.6)
            && (FailsTooOften(cfg, r) && r.obstacles == [] && r.sparseAreas == [] && LooksBlind(r) ==>
                  FailureRate(r) <= 0.9)
  {
    hide FailureRate, Detect, LooksBlind, FailsTooOften;
    var changes := Detect(cfg, r);
    FirstSeverity(cfg, r);
    DetectAtMost(cfg, r, changes[0].severity);
    assert AtMost(changes, changes[0].severity)
      <==> forall i :: 0 <= i < |changes| ==> changes[i].severity <= changes[0].severity;
  }

  lemma FirstSeverity(cfg: Config, r: Result)
    requires Detect(cfg, r) != []
    ensures Detect(cfg, r)[0].severity ==
              if r.obstacles != [] then 0.8
              else if r.sparseAreas != [] then 0.6
              else if LooksBlind(r) then 0.9
              else if FailsTooOften(cfg, r) then FailureRate(r)
              else 0.0
    ensures r.obstacles == [] && r.sparseAreas == [] && !LooksBlind(r) ==> FailsTooOften(cfg, r)
  {
    hide FailureRate, Centre;
  }

  lemma DetectAtMost(cfg: Config, r: Result, x: real)
    ensures AtMost(Detect(cfg, r), x) <==>
            && (r.obstacles == [] || 0.8 <= x) && (r.sparseAreas == [] || 0.6 <= x)
            && (LooksBlind(r) ==> 0.9 <= x) && (FailsTooOften(cfg, r) ==> FailureRate(r) <= x)
  {
    hide FailureRate, AtMost, Changes, Blind, Failing;
    var obstacles, sparse := Changes(NewObstacle, r.obstacles, 0.8), Changes(SparseAreaDetected, r.sparseAreas, 0.6);
    AtMostConcat(obstacles + sparse + Blind(r), Failing(cfg, r), x);
    AtMostConcat(obstacles + sparse, Blind(r), x);
    AtMostConcat(obstacles, sparse, x);
    AtMostChanges(NewObstacle, r.obstacles, 0.8, x);
    AtMostChanges(SparseAreaDetected, r.sparseAreas, 0.6, x);
    AtMostBlind(r, x);
    AtMostFailing(cfg, r, x);
  }

  predicate AtMost(changes: seq<Change>, x: real) { forall i :: 0 <= i < |changes| ==> changes[i].severity <= x }

  lemma AtMostConcat(a: seq<Change>, b: seq<Change>, x: real)
    ensures AtMost(a + b, x) <==> AtMost(a, x) && AtMost(b, x)
  {
    var c := a + b;
    if AtMost(c, x) {
      forall i | 0 <= i < |a| ensures a[i].severity <= x { assert c[i] == a[i]; }
      forall i | 0 <= i < |b| ensures b[i].severity <= x { assert c[|a| + i] == b[i]; }
    }
  }

  lemma AtMostBlind(r: Result, x: real)
    ensures AtMost(Blind(r), x) <==> (LooksBlind(r) ==> 0.9 <= x)
  {
    if LooksBlind(r) { assert Blind(r)[0].severity == 0.9; }
  }

  lemma AtMostFailing(cfg: Config, r: Result, x: real)
    ensures AtMost(Failing(cfg, r), x) <==> (FailsTooOften(cfg, r) ==> FailureRate(r) <= x)
  {
    hide FailureRate, Centre;
    if FailsTooOften(cfg, r) { assert Failing(cfg, r)[0].severity == FailureRate(r); }
  }

  lemma AtMostChanges(kind: ChangeType, places: seq<Point>, severity: real, x: real)
    ensures AtMost(Changes(kind, places, severity), x) <==> places == [] || severity <= x
  {
    var c := Changes(kind, places, severity);
    if places != [] { assert c[0].severity == severity; }
  }

  // ---------------------------------------------------------------- the class

  class CollectionFeedback {
    const cfg: Config
    var stats: Stats
    var rewardWindow: seq<Float>
    var given: E.Given
    var experienceBuffer: seq<Experience>
    var totalUploaded: nat
    var totalReplans: nat
    ghost var rewards: seq<Float>
    ghost var experiences: seq<Experience>
    ghost var batches: seq<seq<Experience>>
    ghost var signals: seq<Change>

    ghost function View(): State
      reads this
    {
      State(stats, rewardWindow, given, experienceBuffer, totalUploaded, totalReplans,
            rewards, experiences, batches, signals)
    }

    ghost predicate Valid()
      reads this
    {
      stats.count == |rewards|
    }

    constructor (cfg: Config)
      ensures Valid() && View() == Init() && this.cfg == cfg
    {
      this.cfg, stats, rewardWindow, given, experienceBuffer := cfg, NOTHING_YET, [], NOTHING_GIVEN, [];
      totalUploaded, totalReplans, rewards, experiences, batches, signals := 0, 0, [], [], [], [];
    }

    method SetCurrentExperience(state: seq<real>, action: seq<real>)
      requires Valid()
      modifies this`given
      ensures Valid() && View() == Apply(cfg, old(View()), SetCurrent(state, action))
    {
      given := given.(last := state);
      given := given.(state := state);
      given := given.(action := action);
    }

    method GenerateMetadata(result: Result, reward: Float, changes: seq<Change>) returns (e: Experience)
      ensures e == Metadata(given, result, reward, changes) && e.reward == reward
    {
      var vectors := E.GenerateVectors(given, result.executedPath);
      e := Experience(vectors, reward, 0, Some(0), 0);
      if changes != [] {
        e := e.(changeType := Code(changes[0].kind), severity := Percent(changes[0].severity));
      }
      e := e.(timestamp := result.timestamp);
    }

    method UploadExperiences()
      requires Valid()
      modifies this
      ensures Valid() && View() == Uploaded(cfg, old(View()))
    {
      if experienceBuffer == [] {
        return;
      }
      if cfg.hasUploadCallback {
        batches := batches + [experienceBuffer];
        totalUploaded := totalUploaded + |experienceBuffer|;
      }
      experienceBuffer := [];
    }

    method SubmitCollectionResult(result: Result)
      requires Valid()
      modifies this
      ensures Valid() && View() == Apply(cfg, old(View()), Submit(result))
    {
      hide Detect, Decided, Uploaded, Reward, Counted, Slid, Metadata;
      var reward := ComputeReward(result);
      CountReward(reward);
      var changes := DetectEnvironmentChanges(result);
      var experience := GenerateMetadata(result, reward, changes);
      experienceBuffer := experienceBuffer + [experience];
      experiences := experiences + [experience];
      if |experienceBuffer| >= cfg.uploadThreshold {
        UploadExperiences();
      }
      assert View() == Stored(cfg, old(View()), experience);
      ReplanIfNeeded(result, changes);
    }

    /** The last part of `submitCollectionResult`. */
    method ReplanIfNeeded(result: Result, changes: seq<Change>)
      requires Valid()
      modifies this`totalReplans, this`signals
      ensures Valid() && View() == Decided(cfg, old(View()), result, changes)
    {
      hide ShouldReplan;
      var replan := DecideReplan(result, changes);
      if replan {
        totalReplans := totalReplans + 1;
        if cfg.hasReplanCallback && changes != [] {
          signals := signals + [changes[0]];
        }
      }
    }

    method ComputeReward(result: Result) returns (reward: Float)
      ensures reward == Reward(cfg.weights, result)
    {
      hide FailureRate, Add, MulBy, Weighted;
      reward := Fin(Weighted(result.dataValue, cfg.weights.dataValue) + Weighted(result.novelty, cfg.weights.coverage));
      var efficiencyReward := Fin(0.0);
      if result.actualCost > 0.0 {
        var successRate :=
          if result.attempted > 0 then Fin(result.successful as real / result.attempted as real)
          else if result.successful > 0 then Inf(true)
          else NaN;
        efficiencyReward := MulBy(successRate, cfg.weights.efficiency);
      }
      reward := Add(reward, efficiencyReward);
      reward := Add(reward, Fin(Weighted(result.quality, 2.0)));
      var failurePenalty := 0.0;
      if result.attempted > 0 {
        failurePenalty := Weighted(FailureRate(result), cfg.weights.collisionPenalty);
      }
      reward := Add(reward, Fin(failurePenalty));
    }

    /** The statistics and the sliding window. */
    method CountReward(reward: Float)
      requires Valid()
      modifies this`stats, this`rewardWindow, this`rewards
      ensures Valid()
      ensures stats == Counted(old(stats), reward) && rewardWindow == Slid(old(rewardWindow), reward)
      ensures rewards == old(rewards) + [reward]
    {
      hide Add, Over, MinOf, MaxOf;
      var total, count := Add(stats.total, reward), stats.count + 1;
      stats := Stats(total, Over(total, count), MinOf(stats.least, reward), MaxOf(stats.most, reward), count);
      rewardWindow := rewardWindow + [reward];
      if |rewardWindow| > REWARD_WINDOW_SIZE {
        rewardWindow := rewardWindow[1..];
      }
      rewards := rewards + [reward];
    }

    method DetectEnvironmentChanges(result: Result) returns (changes: seq<Change>)
      ensures changes == Detect(cfg, result)
    {
      changes := [];
      for i := 0 to |result.obstacles|
        invariant changes == Changes(NewObstacle, result.obstacles[..i], 0.8)
      {
        changes := changes + [Change(NewObstacle, result.obstacles[i], 0.8)];
      }
      assert result.obstacles[..|result.obstacles|] == result.obstacles;
      ghost var obstacles := changes;
      for i := 0 to |result.sparseAreas|
        invariant changes == obstacles + Changes(SparseAreaDetected, result.sparseAreas[..i], 0.6)
      {
        changes := changes + [Change(SparseAreaDetected, result.sparseAreas[i], 0.6)];
      }
      assert result.sparseAreas[..|result.sparseAreas|] == result.sparseAreas;
      if result.quality < 0.3 && result.successful > 0 {
        var n := |result.executedPath|;
        var lastPosition := if n == 0 then Point(0.0, 0.0) else result.executedPath[n - 1];
        changes := changes + [Change(SensorFailure, lastPosition, 0.9)];
      }
      if result.attempted > 0 {
        var failureRate := FailureRate(result);
        if failureRate > cfg.failureRate {
          var centre := AveragePosition(result.executedPath);
          changes := changes + [Change(HighDensityDetected, centre, failureRate)];
        }
      }
    }

    static method AveragePosition(path: seq<Point>) returns (c: Point)
      ensures c == Centre(path)
    {
      var x, y := 0.0, 0.0;
      for i := 0 to |path|
        invariant x == SumX(path[..i]) && y == SumY(path[..i])
      {
        assert path[..i + 1][..i] == path[..i];
        x, y := x + path[i].x, y + path[i].y;
      }
      assert path[..|path|] == path;
      c := if path == [] then Point(0.0, 0.0) else Point(x / |path| as real, y / |path| as real);
    }

    method DecideReplan(result: Result, changes: seq<Change>) returns (replan: bool)
      ensures replan == ShouldReplan(cfg, View(), result, changes)
    {
      for i := 0 to |changes|
        invariant forall j :: 0 <= j < i ==> changes[j].severity < cfg.envChangeSeverity
      {
        if changes[i].severity >= cfg.envChangeSeverity {
          return true;
        }
      }
      if rewardWindow != [] {
        var sum := Fin(0.0);
        for i := 0 to |rewardWindow|
          invariant sum == Accumulated(rewardWindow[..i])
        {
          assert rewardWindow[..i + 1][..i] == rewardWindow[..i];
          sum := Add(sum, rewardWindow[i]);
        }
        assert rewardWindow[..|rewardWindow|] == rewardWindow;
        var recent := Over(sum, |rewardWindow|);
        if stats.count > REWARD_WINDOW_SIZE && Less(recent, MulBy(stats.average, 1.0 - cfg.rewardDrop)) {
          return true;
        }
      }
      replan := result.attempted > 0 && FailureRate(result) > cfg.failureRate;
    }
  }
}
