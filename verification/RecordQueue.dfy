/** Trigger handler and background recorder of data_collection_executor.cpp.

    The handler is a mutually exclusive callback, so one trigger is handled at a time: it checks the
    cooldown, stamps the acceptance, and later, in its own critical section, pushes a task.  The
    worker takes and records tasks until it is told to stop, then drains the queue while holding the
    mutex.  A run is any interleaving of the steps; a step whose guard does not hold is a no-op.  A
    task is named by its place in the order of acceptance.  Times are microseconds in 64 bits. */
module RecordQueue {

  import opened Common

  const MICROS: int := 1000000

  datatype Handler = Ready | Stamped(task: nat)

  datatype Worker =
    | Top                        // at the loop condition
    | Waiting                    // at the wait, before taking a task
    | Recording(task: nat)
    | Leaving                    // out of the loop, before the drain takes the mutex
    | Draining                   // holds the mutex
    | DrainRecording(task: nat)  // holds the mutex
    | Exited

  datatype State = State(
    lastTrigger: nat, stamps: seq<nat>, handler: Handler, queue: seq<nat>, running: bool, worker: Worker,
    pushed: seq<nat>, recorded: seq<nat>)

  datatype Action =
    | Trigger(now: nat, stamp: nat, diskOk: bool)   // `stamp` is the clock when the request is accepted
    | Push
    | Work
    | Shutdown

  /** `isInCooldown`; a missing strategy is a cooldown of 0.  The subtraction wraps. */
  predicate InCooldown(cooldownSec: nat, last: nat, now: nat) {
    cooldownSec != 0 && (now - last) % TWO_64 < cooldownSec * MICROS
  }

  function Init(start: nat): State { State(start, [], Ready, [], true, Top, [], []) }

  predicate MutexHeld(w: Worker) { w.Draining? || w.DrainRecording? }

  /** The worker's next step. */
  function WorkStep(s: State): State {
    match s.worker
    case Top => s.(worker := if s.running then Waiting else Leaving)
    case Waiting =>
      if s.queue != [] then s.(worker := Recording(s.queue[0]), queue := s.queue[1..])
      else if !s.running then s.(worker := Leaving)
      else s
    case Recording(t) => s.(worker := Top, recorded := s.recorded + [t])
    case Leaving => s.(worker := Draining)
    case Draining =>
      if s.queue != [] then s.(worker := DrainRecording(s.queue[0]), queue := s.queue[1..]) else s.(worker := Exited)
    case DrainRecording(t) => s.(worker := Draining, recorded := s.recorded + [t])
    case Exited => s
  }

  function Apply(cooldownSec: nat, s: State, a: Action): State {
    match a
    case Trigger(now, stamp, diskOk) =>
      if s.handler.Ready? && !InCooldown(cooldownSec, s.lastTrigger, now) && diskOk then
        s.(lastTrigger := stamp, stamps := s.stamps + [stamp], handler := Stamped(|s.stamps|))
      else s
    case Push =>
      if s.handler.Stamped? && !MutexHeld(s.worker) then
        s.(handler := Ready, queue := s.queue + [s.handler.task], pushed := s.pushed + [s.handler.task])
      else s
    case Work => WorkStep(s)
    case Shutdown => s.(running := false)
  }

  function Run(start: nat, cooldownSec: nat, actions: seq<Action>): State
    decreases |actions|
  {
    if actions == [] then Init(start)
    else Apply(cooldownSec, Run(start, cooldownSec, actions[..|actions| - 1]), actions[|actions| - 1])
  }

  // ---------------------------------------------------------------- conservation

  /** The task the worker holds. */
  function Held(w: Worker): seq<nat> { if w.Recording? || w.DrainRecording? then [w.task] else [] }

  /** The task stamped but not pushed yet. */
  function Pending(h: Handler): seq<nat> { if h.Stamped? then [h.task] else [] }

  ghost predicate Inv(s: State) {
    && s.pushed == s.recorded + Held(s.worker) + s.queue
    && s.pushed + Pending(s.handler) == Upto(0, |s.stamps|)
    && (MutexHeld(s.worker) || s.worker.Leaving? || s.worker.Exited? ==> !s.running)
  }

  lemma WorkKeepsInv(s: State)
    requires Inv(s)
    ensures Inv(WorkStep(s))
  {
  }

  lemma TriggerKeepsInv(cooldownSec: nat, s: State, a: Action)
    requires Inv(s) && a.Trigger?
    ensures Inv(Apply(cooldownSec, s, a))
  {
    hide InCooldown;
    assert Upto(0, |s.stamps| + 1) == Upto(0, |s.stamps|) + [|s.stamps|];
  }

  lemma PushKeepsInv(cooldownSec: nat, s: State)
    requires Inv(s)
    ensures Inv(Apply(cooldownSec, s, Push))
  {
  }

  lemma {:induction false} RunKeepsInv(start: nat, cooldownSec: nat, actions: seq<Action>)
    ensures Inv(Run(start, cooldownSec, actions))
    decreases |actions|
  {
    hide WorkStep, InCooldown;
    if actions != [] {
      var s := Run(start, cooldownSec, actions[..|actions| - 1]);
      RunKeepsInv(start, cooldownSec, actions[..|actions| - 1]);
      match actions[|actions| - 1]
      case Trigger(_, _, _) => TriggerKeepsInv(cooldownSec, s, actions[|actions| - 1]);
      case Push => PushKeepsInv(cooldownSec, s);
      case Work => WorkKeepsInv(s);
      case Shutdown =>
    }
  }

  // ---------------------------------------------------------------- the results: recording

  /** In every reachable state the tasks recorded are exactly 0, 1, ... in order of acceptance, the
      one in the worker's hands is next, and the queue and the handler hold the rest: nothing is
      lost, repeated or reordered, in normal operation and in the drain alike. */
  lemma RecordedInOrder(start: nat, cooldownSec: nat, actions: seq<Action>)
    ensures var s := Run(start, cooldownSec, actions);
            s.recorded + Held(s.worker) + s.queue + Pending(s.handler) == Upto(0, |s.stamps|)
    ensures var s := Run(start, cooldownSec, actions);
            |s.recorded| <= |s.stamps| && s.recorded == Upto(0, |s.recorded|)
  {
    RunKeepsInv(start, cooldownSec, actions);
    var s := Run(start, cooldownSec, actions);
    assert Upto(0, |s.stamps|)[..|s.recorded|] == Upto(0, |s.recorded|);
    assert s.recorded == (s.pushed + Pending(s.handler))[..|s.recorded|];
  }

  /** At the step in which the worker exits, every task pushed so far has been recorded. */
  lemma ExitMeansDrained(start: nat, cooldownSec: nat, actions: seq<Action>)
    requires !Run(start, cooldownSec, actions).worker.Exited?
    requires Run(start, cooldownSec, actions + [Work]).worker.Exited?
    ensures var s := Run(start, cooldownSec, actions + [Work]);
            s.recorded == s.pushed && s.queue == [] && !s.running
  {
    RunKeepsInv(start, cooldownSec, actions);
    assert (actions + [Work])[..|actions|] == actions;
  }

  /** From then on nothing more is recorded, so a task is recorded exactly when it was pushed before
      the worker exited. */
  lemma {:induction false} NothingAfterExit(start: nat, cooldownSec: nat, actions: seq<Action>, more: seq<Action>)
    requires Run(start, cooldownSec, actions).worker.Exited?
    ensures var s, t := Run(start, cooldownSec, actions), Run(start, cooldownSec, actions + more);
            && t.worker.Exited? && t.recorded == s.recorded
            && s.pushed <= t.pushed
            && |t.pushed| - |t.recorded| == |t.queue|
    decreases |more|
  {
    hide Apply;
    RunKeepsInv(start, cooldownSec, actions + more);
    if more == [] {
      assert actions + more == actions;
    } else {
      var before := more[..|more| - 1];
      assert (actions + more)[..|actions + more| - 1] == actions + before;
      NothingAfterExit(start, cooldownSec, actions, before);
      StepAfterExit(cooldownSec, Run(start, cooldownSec, actions + before), more[|more| - 1]);
    }
  }

  lemma StepAfterExit(cooldownSec: nat, s: State, a: Action)
    requires s.worker.Exited?
    ensures var t := Apply(cooldownSec, s, a); t.worker.Exited? && t.recorded == s.recorded && s.pushed <= t.pushed
  {
    hide InCooldown;
  }

  // ---------------------------------------------------------------- the results: progress

  lemma RunAppend(start: nat, cooldownSec: nat, actions: seq<Action>, a: Action)
    ensures Run(start, cooldownSec, actions + [a]) == Apply(cooldownSec, Run(start, cooldownSec, actions), a)
  {
    assert (actions + [a])[..|actions|] == actions;
  }

  /** The worker is told to stop exactly by the destructor. */
  lemma {:induction false} RunningIff(start: nat, cooldownSec: nat, actions: seq<Action>)
    ensures Run(start, cooldownSec, actions).running <==> Shutdown !in actions
    decreases |actions|
  {
    hide InCooldown;
    if actions != [] {
      var before := actions[..|actions| - 1];
      RunningIff(start, cooldownSec, before);
      assert actions == before + [actions[|actions| - 1]];
    }
  }

  /** What a step of the worker does, and when: it takes the oldest queued task whenever it waits or
      drains and there is one; it records the task it holds; it leaves its loop when told to stop, but
      not from a queue with tasks in it; and it stands still only once it has exited, or while it waits
      for a task without having been told to stop. */
  lemma WorkerMoves(start: nat, cooldownSec: nat, actions: seq<Action>)
    ensures var s, t := Run(start, cooldownSec, actions), Run(start, cooldownSec, actions + [Work]);
            && (t.queue != s.queue <==> s.queue != [] && (s.worker.Waiting? || s.worker.Draining?))
            && (t.queue != s.queue ==> s.queue == Held(t.worker) + t.queue)
            && (t.recorded != s.recorded <==> Held(s.worker) != []) && t.recorded == s.recorded + Held(s.worker)
            && (t.worker.Leaving? <==> Shutdown in actions && (s.worker.Top? || (s.worker.Waiting? && s.queue == [])))
            && (t.worker.Exited? <==> s.worker.Exited? || (s.worker.Draining? && s.queue == []))
            && (t.worker == s.worker <==>
                  s.worker.Exited? || (s.worker.Waiting? && s.queue == [] && Shutdown !in actions))
            && t.pushed == s.pushed && t.stamps == s.stamps && t.handler == s.handler
  {
    hide Run;
    RunKeepsInv(start, cooldownSec, actions);
    RunningIff(start, cooldownSec, actions);
    RunAppend(start, cooldownSec, actions, Work);
    var s := Run(start, cooldownSec, actions);
    if s.queue != [] { assert |s.queue[1..]| < |s.queue|; }
    if Held(s.worker) != [] { assert |s.recorded + Held(s.worker)| > |s.recorded|; }
  }

  /** An accepted task is pushed exactly while nobody drains. */
  lemma PushesIff(start: nat, cooldownSec: nat, actions: seq<Action>)
    ensures var s, t := Run(start, cooldownSec, actions), Run(start, cooldownSec, actions + [Push]);
            && (t.pushed != s.pushed <==> s.handler.Stamped? && !s.worker.Draining? && !s.worker.DrainRecording?)
            && (t.pushed != s.pushed ==> t.queue == s.queue + Pending(s.handler) && t.handler.Ready?)
            && (t.pushed == s.pushed ==> t == s)
            && t.worker == s.worker && t.recorded == s.recorded
  {
    hide Run;
    RunAppend(start, cooldownSec, actions, Push);
    var s := Run(start, cooldownSec, actions);
    assert |s.pushed + [0]| > |s.pushed|;
  }

  /** The steps left to a worker that has been told to stop. */
  function StepsLeft(s: State): nat {
    4 * |s.queue|
    + match s.worker
      case Exited => 0
      case Draining => 1
      case DrainRecording(_) => 2
      case Leaving => 2
      case Top => 3
      case Waiting => 4
      case Recording(_) => 4
  }

  /** Once told to stop, the worker gets to its exit by its own steps, with everything pushed so far
      recorded. */
  lemma {:induction false} WorkerExits(start: nat, cooldownSec: nat, actions: seq<Action>) returns (more: seq<Action>)
    requires Shutdown in actions
    ensures forall a :: a in more ==> a == Work
    ensures Run(start, cooldownSec, actions + more).worker.Exited?
    ensures var s, t := Run(start, cooldownSec, actions), Run(start, cooldownSec, actions + more);
            t.pushed == s.pushed && (if s.worker.Exited? then more == [] else t.recorded == t.pushed)
    decreases StepsLeft(Run(start, cooldownSec, actions))
  {
    hide Run, WorkStep, StepsLeft;
    var s := Run(start, cooldownSec, actions);
    if s.worker.Exited? {
      more := [];
      assert actions + more == actions;
    } else {
      RunningIff(start, cooldownSec, actions);
      RunAppend(start, cooldownSec, actions, Work);
      WorkerMoves(start, cooldownSec, actions);
      StopGoesOn(s);
      if Run(start, cooldownSec, actions + [Work]).worker.Exited? { ExitMeansDrained(start, cooldownSec, actions); }
      var rest := WorkerExits(start, cooldownSec, actions + [Work]);
      more := [Work] + rest;
      assert actions + more == (actions + [Work]) + rest && (rest == [] ==> more == [Work]);
    }
  }

  lemma StopGoesOn(s: State)
    requires !s.running && !s.worker.Exited?
    ensures StepsLeft(WorkStep(s)) < StepsLeft(s)
  {
  }

  // ---------------------------------------------------------------- the results: cooldown

  /** The clock read by the handler never goes back, and fits 64 bits. */
  predicate Monotone(start: nat, actions: seq<Action>)
    decreases |actions|
  {
    if actions == [] then start < TWO_64
    else
      var before, a := actions[..|actions| - 1], actions[|actions| - 1];
      Monotone(start, before) && (a.Trigger? ==> Latest(start, before) <= a.now <= a.stamp < TWO_64)
  }

  function Latest(start: nat, actions: seq<Action>): nat
    decreases |actions|
  {
    if actions == [] then start
    else
      var before, a := actions[..|actions| - 1], actions[|actions| - 1];
      if a.Trigger? then a.stamp else Latest(start, before)
  }

  /** What the wrapping subtraction decides: with the clock at or past the last acceptance, less than
      a cooldown has gone by; with the clock set back, only a jump of almost 2^64 us counts. */
  lemma CooldownIff(cooldownSec: nat, last: nat, now: nat)
    requires cooldownSec < 256 && last < TWO_64 && now < TWO_64
    ensures InCooldown(cooldownSec, last, now) <==>
              if last <= now then now - last < cooldownSec * MICROS else last - now > TWO_64 - cooldownSec * MICROS
  {
    var d := now - last;
    if last <= now { SmallMod(d); } else { SmallMod(d + TWO_64); WrapMod(d); }
  }

  lemma SmallMod(d: int)
    requires 0 <= d < TWO_64
    ensures d % TWO_64 == d
  {
  }

  lemma WrapMod(d: int)
    ensures d % TWO_64 == (d + TWO_64) % TWO_64
  {
  }

  ghost predicate Spaced(start: nat, stamps: seq<nat>, gap: int) {
    && (stamps != [] ==> stamps[0] - start >= gap)
    && forall i :: 0 < i < |stamps| ==> stamps[i] - stamps[i - 1] >= gap
  }

  lemma {:induction false} RunIsSpaced(start: nat, cooldownSec: nat, actions: seq<Action>)
    requires cooldownSec < 256 && Monotone(start, actions)
    ensures var s := Run(start, cooldownSec, actions);
            && Spaced(start, s.stamps, cooldownSec * MICROS)
            && s.lastTrigger == (if s.stamps == [] then start else s.stamps[|s.stamps| - 1])
            && s.lastTrigger <= Latest(start, actions) < TWO_64
    decreases |actions|
  {
    hide InCooldown, WorkStep;
    if actions != [] {
      var before, a := actions[..|actions| - 1], actions[|actions| - 1];
      var s := Run(start, cooldownSec, before);
      RunIsSpaced(start, cooldownSec, before);
      if a.Trigger? {
        CooldownIff(cooldownSec, s.lastTrigger, a.now);
      } else if a.Work? {
        WorkLeavesStamps(s);
      }
    }
  }

  lemma WorkLeavesStamps(s: State)
    ensures WorkStep(s).stamps == s.stamps && WorkStep(s).lastTrigger == s.lastTrigger
    ensures WorkStep(s).handler == s.handler
  {
  }

  /** With a clock that never goes back, any two acceptances are at least the cooldown apart. */
  lemma {:induction false} AcceptancesAreSpaced(start: nat, cooldownSec: nat, actions: seq<Action>, i: nat, j: nat)
    requires cooldownSec < 256 && Monotone(start, actions)
    requires i < j < |Run(start, cooldownSec, actions).stamps|
    ensures var stamps := Run(start, cooldownSec, actions).stamps;
            stamps[j] - stamps[i] >= cooldownSec * 1000000 && stamps[i] - start >= cooldownSec * 1000000
    decreases j + i
  {
    RunIsSpaced(start, cooldownSec, actions);
    if i > 0 { AcceptancesAreSpaced(start, cooldownSec, actions, i - 1, i); }
    if j > i + 1 { AcceptancesAreSpaced(start, cooldownSec, actions, i, j - 1); }
  }

  /** A trigger that finds the handler ready is accepted exactly when the disk has room and, with the
      clock at or past the last acceptance, a cooldown has gone by since; with the clock set back, it
      is accepted at once, unless set back so far that the 64-bit difference comes out below a
      cooldown. */
  lemma AcceptedIff(cooldownSec: nat, s: State, now: nat, stamp: nat, diskOk: bool)
    requires cooldownSec < 256 && s.handler.Ready? && s.lastTrigger < TWO_64 && now < TWO_64
    ensures var t := Apply(cooldownSec, s, Trigger(now, stamp, diskOk));
            && (|t.stamps| == |s.stamps| + 1 ==> t.stamps == s.stamps + [stamp] && t.handler == Stamped(|s.stamps|))
            && (|t.stamps| == |s.stamps| + 1 <==>
              && diskOk
              && (s.lastTrigger <= now ==> now - s.lastTrigger >= cooldownSec * 1000000)
              && (s.lastTrigger > now ==> s.lastTrigger - now <= TWO_64 - cooldownSec * 1000000))
  {
    hide InCooldown;
    CooldownIff(cooldownSec, s.lastTrigger, now);
  }

  /** Why the spacing needs the monotone clock: once a trigger has been accepted and its task pushed, a
      trigger under a clock set back is accepted too, out of order, unless the 64-bit difference comes
      out below a cooldown. */
  lemma ClockSetBackEndsCooldown(cooldownSec: nat, s: State, first: nat, second: nat)
    requires cooldownSec < 256 && s.handler.Ready? && !MutexHeld(s.worker)
    requires second < first < TWO_64 && s.lastTrigger <= first && first - s.lastTrigger >= cooldownSec * MICROS
    ensures var t := Apply(cooldownSec, Apply(cooldownSec, s, Trigger(first, first, true)), Push);
            var u := Apply(cooldownSec, t, Trigger(second, second, true));
            && t.stamps == s.stamps + [first]
            && (first - second <= TWO_64 - cooldownSec * MICROS ==> u.stamps == s.stamps + [first] + [second])
            && (first - second > TWO_64 - cooldownSec * MICROS ==> u == t)
  {
    hide InCooldown;
    CooldownIff(cooldownSec, s.lastTrigger, first);
    CooldownIff(cooldownSec, first, second);
  }

  // ---------------------------------------------------------------- the drain

  function Works(s: State, n: nat): State {
    if n == 0 then s else WorkStep(Works(s, n - 1))
  }

  /** What the drain leaves behind. */
  function Drained(s: State): State {
    s.(recorded := s.recorded + s.queue, queue := [], worker := Exited)
  }

  lemma {:induction false} WorksFrom(s: State, n: nat)
    ensures Works(s, n + 1) == Works(WorkStep(s), n)
  {
    if n > 0 { WorksFrom(s, n - 1); }
  }

  /** The drain loop is the worker's own steps, two for each task and one to exit. */
  lemma {:induction false} DrainIsWorks(s: State)
    requires s.worker.Draining?
    ensures Works(s, 2 * |s.queue| + 1) == Drained(s)
    decreases |s.queue|
  {
    if s.queue == [] {
      assert Works(s, 0) == s;
      assert s.recorded + s.queue == s.recorded;
    } else {
      hide WorkStep, Drained;
      var n := 2 * |s.queue| - 1;
      DrainOne(s);
      WorksFrom(s, n + 1);
      WorksFrom(WorkStep(s), n);
      DrainIsWorks(WorkStep(WorkStep(s)));
    }
  }

  lemma DrainOne(s: State)
    requires s.worker.Draining? && s.queue != []
    ensures var t := WorkStep(WorkStep(s)); t.worker.Draining? && t.queue == s.queue[1..] && Drained(t) == Drained(s)
  {
    var t := WorkStep(WorkStep(s));
    assert s.queue == [s.queue[0]] + s.queue[1..];
    assert s.recorded + s.queue == t.recorded + t.queue;
  }

  // ---------------------------------------------------------------- the class

  class DataCollectionExecutor {
    const cooldownDurationSec: nat
    var lastTriggerFinishTime: nat
    var totalRecordings: nat
    var recordQueue: seq<nat>
    var recordWorkerRunning: bool
    var handler: Handler
    var worker: Worker
    ghost var stamps: seq<nat>
    ghost var pushed: seq<nat>
    ghost var recorded: seq<nat>

    ghost function View(): State
      reads this
    {
      State(lastTriggerFinishTime, stamps, handler, recordQueue, recordWorkerRunning, worker, pushed, recorded)
    }

    ghost predicate Valid()
      reads this
    {
      totalRecordings == |stamps|
    }

    constructor (cooldownSec: nat, now: nat)
      ensures Valid() && View() == Init(now) && cooldownDurationSec == cooldownSec
    {
      cooldownDurationSec, lastTriggerFinishTime, totalRecordings := cooldownSec, now, 0;
      recordQueue, recordWorkerRunning, handler, worker := [], true, Ready, Top;
      stamps, pushed, recorded := [], [], [];
    }

    method IsInCooldown(now: nat) returns (r: bool)
      ensures r == InCooldown(cooldownDurationSec, lastTriggerFinishTime, now)
    {
      if cooldownDurationSec == 0 {
        return false;
      }
      var sinceLastFinish := (now - lastTriggerFinishTime) % TWO_64;
      var requiredCooldown := cooldownDurationSec * MICROS;
      r := sinceLastFinish < requiredCooldown;
    }

    /** `handleTriggerService` up to the stamp; what is left of an accepted call is `PushTask`. */
    method HandleTrigger(now: nat, stamp: nat, diskOk: bool) returns (accepted: bool)
      requires Valid() && handler.Ready?
      modifies this
      ensures Valid() && View() == Apply(cooldownDurationSec, old(View()), Trigger(now, stamp, diskOk))
      ensures accepted == handler.Stamped?
    {
      hide InCooldown;
      var cooling := IsInCooldown(now);
      if cooling {
        return false;
      }
      if !diskOk {
        return false;
      }
      lastTriggerFinishTime := stamp;
      stamps := stamps + [stamp];
      handler := Stamped(totalRecordings);
      totalRecordings := totalRecordings + 1;
      accepted := true;
    }

    method PushTask()
      requires Valid() && handler.Stamped? && !MutexHeld(worker)
      modifies this
      ensures Valid() && View() == Apply(cooldownDurationSec, old(View()), Push)
    {
      recordQueue := recordQueue + [handler.task];
      pushed := pushed + [handler.task];
      handler := Ready;
    }

    /** The destructor's store. */
    method StopWorker()
      requires Valid()
      modifies this`recordWorkerRunning
      ensures Valid() && View() == Apply(cooldownDurationSec, old(View()), Shutdown)
    {
      recordWorkerRunning := false;
    }

    /** One step of the loop of `recordWorkerLoop`. */
    method WorkerLoopStep()
      requires Valid() && (worker.Top? || worker.Waiting? || worker.Recording?)
      modifies this
      ensures Valid() && View() == Apply(cooldownDurationSec, old(View()), Work)
    {
      match worker {
        case Top => worker := if recordWorkerRunning then Waiting else Leaving;
        case Waiting =>
          if !recordWorkerRunning && recordQueue == [] {
            worker := Leaving;
          } else if recordQueue != [] {
            worker := Recording(recordQueue[0]);
            recordQueue := recordQueue[1..];
          }
        case Recording(t) =>
          recorded := recorded + [t];
          worker := Top;
      }
    }

    /** The drain, in one critical section. */
    method DrainQueue()
      requires Valid() && worker.Leaving?
      modifies this
      ensures Valid() && View() == Drained(old(View()))
    {
      while recordQueue != []
        invariant Valid() && worker.Leaving?
        invariant recorded + recordQueue == old(recorded + recordQueue)
        invariant View() == old(View()).(recorded := recorded, queue := recordQueue)
      {
        var t := recordQueue[0];
        assert recorded + recordQueue == (recorded + [t]) + recordQueue[1..];
        recordQueue := recordQueue[1..];
        recorded := recorded + [t];
      }
      worker := Exited;
    }
  }
}
