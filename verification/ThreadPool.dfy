/** The drop-oldest thread pool of ThreadPool.h.

    Every action below is one critical section of the source, or the run of a task between two of
    them; condition variables are the guards of the actions.  A run is any sequence of actions,
    where an action whose guard does not hold is a no-op.  A task is named by its place in the
    sequence of accepted `enqueue` calls. */
module ThreadPool {

  import opened Common

  datatype Worker =
    | Waiting
    | Running(task: nat)   // holds a task it has taken
    | Ran                  // the task has returned, the counter is not yet lowered
    | Exited

  datatype Pool = Pool(
    tasks: seq<nat>, stop: bool, executing: int, workers: seq<Worker>,
    accepted: nat, dropped: seq<nat>, finished: seq<nat>)

  datatype Action =
    | Enqueue
    | Take(worker: nat)
    | Return(worker: nat)
    | Release(worker: nat)
    | Exit(worker: nat)
    | Stop

  function Init(threads: nat): Pool {
    Pool([], false, 0, seq(threads, _ => Waiting), 0, [], [])
  }

  predicate Is(s: Pool, i: nat, w: Worker) { i < |s.workers| && s.workers[i] == w }

  /** `enqueue` on an unstopped pool would pop a queue that has nothing in it. */
  predicate PopsEmpty(s: Pool) { |s.tasks| >= |s.workers| && s.tasks == [] }

  function Apply(s: Pool, a: Action): Pool {
    match a
    case Enqueue =>
      if s.stop || PopsEmpty(s) then s   // throws; or pops an empty queue, which C++ leaves undefined
      else if |s.tasks| >= |s.workers| then
        s.(tasks := s.tasks[1..] + [s.accepted], dropped := s.dropped + [s.tasks[0]], accepted := s.accepted + 1)
      else s.(tasks := s.tasks + [s.accepted], accepted := s.accepted + 1)
    case Take(i) =>
      if Is(s, i, Waiting) && s.tasks != [] then
        s.(tasks := s.tasks[1..], executing := s.executing + 1, workers := s.workers[i := Running(s.tasks[0])])
      else s
    case Return(i) =>
      if i < |s.workers| && s.workers[i].Running? then
        s.(finished := s.finished + [s.workers[i].task], workers := s.workers[i := Ran])
      else s
    case Release(i) =>
      if Is(s, i, Ran) then s.(executing := s.executing - 1, workers := s.workers[i := Waiting]) else s
    case Exit(i) =>
      if Is(s, i, Waiting) && s.stop && s.tasks == [] then s.(workers := s.workers[i := Exited]) else s
    case Stop => s.(stop := true)
  }

  function Run(threads: nat, actions: seq<Action>): Pool
    decreases |actions|
  {
    if actions == [] then Init(threads)
    else Apply(Run(threads, actions[..|actions| - 1]), actions[|actions| - 1])
  }

  /** The guard of `wait`. */
  predicate WaitReturns(s: Pool) { |s.tasks| + s.executing == 0 }

  /** What the destructor has seen once it has joined every worker. */
  predicate Joined(s: Pool) { s.stop && forall i :: 0 <= i < |s.workers| ==> s.workers[i].Exited? }

  // ---------------------------------------------------------------- counting

  /** Workers that hold a task or have not yet lowered the counter for it. */
  function Busy(workers: seq<Worker>): nat {
    if workers == [] then 0 else One(workers[0].Running? || workers[0].Ran?) + Busy(workers[1..])
  }

  /** Workers that hold task `k`. */
  function Holding(workers: seq<Worker>, k: nat): nat {
    if workers == [] then 0 else One(workers[0] == Running(k)) + Holding(workers[1..], k)
  }

  lemma {:induction false} WorkerUpdate(workers: seq<Worker>, i: nat, w: Worker, k: nat)
    requires i < |workers|
    ensures Holding(workers[i := w], k) + One(workers[i] == Running(k)) == Holding(workers, k) + One(w == Running(k))
    ensures Busy(workers[i := w]) + One(workers[i].Running? || workers[i].Ran?)
         == Busy(workers) + One(w.Running? || w.Ran?)
  {
    if i == 0 {
      assert workers[0 := w][1..] == workers[1..];
    } else {
      WorkerUpdate(workers[1..], i - 1, w, k);
      assert workers[i := w][1..] == workers[1..][i - 1 := w];
    }
  }

  lemma {:induction false} NothingHeld(workers: seq<Worker>, k: nat)
    ensures Busy(workers) == 0 ==> Holding(workers, k) == 0
  {
    if workers != [] { NothingHeld(workers[1..], k); }
  }

  lemma {:induction false} NoneBusy(workers: seq<Worker>)
    requires forall i :: 0 <= i < |workers| ==> workers[i].Exited? || workers[i].Waiting?
    ensures Busy(workers) == 0
  {
    if workers != [] { NoneBusy(workers[1..]); }
  }

  // ---------------------------------------------------------------- the invariant

  /** How often task `k` is dropped, queued, held or finished. */
  function Places(s: Pool, k: nat): nat {
    Count(s.dropped, k) + Count(s.tasks, k) + Holding(s.workers, k) + Count(s.finished, k)
  }

  ghost predicate Inv(s: Pool) {
    && |s.tasks| <= |s.workers| && |s.tasks| <= s.accepted
    && s.tasks == Upto(s.accepted - |s.tasks|, s.accepted)
    && s.executing == Busy(s.workers)
    && ((exists i :: 0 <= i < |s.workers| && s.workers[i].Exited?) ==> s.stop && s.tasks == [])
  }

  lemma EnqueueKeepsInv(s: Pool)
    requires Inv(s)
    ensures Inv(Apply(s, Enqueue))
  {
  }

  lemma WorkerKeepsInv(s: Pool, a: Action, i: nat)
    requires Inv(s) && (a == Take(i) || a == Return(i) || a == Release(i) || a == Exit(i))
    ensures Inv(Apply(s, a))
  {
    var t := Apply(s, a);
    if t != s {
      WorkerUpdate(s.workers, i, t.workers[i], 0);
    }
  }

  /** An action moves tasks between places; only an accepted `enqueue` brings a new one. */
  lemma PlacesStep(s: Pool, a: Action, k: nat)
    ensures var t := Apply(s, a); Places(t, k) == Places(s, k) + One(t.accepted != s.accepted && k == s.accepted)
  {
    var t := Apply(s, a);
    match a
    case Enqueue =>
      if t != s {
        if |s.tasks| >= |s.workers| {
          CountHead(s.tasks, k);
          CountAppend(s.tasks[1..], s.accepted, k);
          CountAppend(s.dropped, s.tasks[0], k);
        } else {
          CountAppend(s.tasks, s.accepted, k);
        }
      }
    case Stop =>
    case Return(i) =>
      if t != s {
        WorkerUpdate(s.workers, i, t.workers[i], k);
        CountAppend(s.finished, s.workers[i].task, k);
      }
    case _ =>
      if t != s {
        WorkerUpdate(s.workers, a.worker, t.workers[a.worker], k);
        if a.Take? { CountHead(s.tasks, k); }
      }
  }

  lemma {:induction false} RunKeepsInv(threads: nat, actions: seq<Action>)
    ensures Inv(Run(threads, actions)) && |Run(threads, actions).workers| == threads
    decreases |actions|
  {
    hide Inv;
    if actions == [] {
      InitInv(threads);
    } else {
      var a, s := actions[|actions| - 1], Run(threads, actions[..|actions| - 1]);
      RunKeepsInv(threads, actions[..|actions| - 1]);
      match a
      case Enqueue => EnqueueKeepsInv(s);
      case Stop => StopKeepsInv(s);
      case _ => WorkerKeepsInv(s, a, a.worker);
    }
  }

  lemma InitInv(threads: nat)
    ensures Inv(Init(threads))
  {
    NoneBusy(Init(threads).workers);
  }

  lemma StopKeepsInv(s: Pool)
    requires Inv(s)
    ensures Inv(Apply(s, Stop))
  {
  }

  // ---------------------------------------------------------------- the results

  /** The queue is the newest accepted tasks, oldest first, and never longer than the pool. */
  lemma {:induction false} QueueIsNewest(threads: nat, actions: seq<Action>)
    ensures var s := Run(threads, actions);
            |s.tasks| <= |s.workers| && |s.tasks| <= s.accepted
            && s.tasks == Upto(s.accepted - |s.tasks|, s.accepted)
  {
    RunKeepsInv(threads, actions);
  }

  lemma RunAppend(threads: nat, actions: seq<Action>, a: Action)
    ensures Run(threads, actions + [a]) == Apply(Run(threads, actions), a)
  {
    assert (actions + [a])[..|actions|] == actions;
  }

  /** A task is accepted exactly when the pool is not stopped and has workers.  One is dropped for it
      exactly when the queue is then as long as the pool, and it is the oldest queued one.  Nothing
      else changes. */
  lemma EnqueueDrops(threads: nat, actions: seq<Action>)
    ensures var s, t := Run(threads, actions), Run(threads, actions + [Enqueue]);
            && (t.accepted == s.accepted + 1 <==> !s.stop && threads > 0)
            && (t.dropped != s.dropped <==> !s.stop && 0 < threads == |s.tasks|)
            && (t.dropped != s.dropped ==> t.dropped == s.dropped + [s.accepted - threads])
            && (t.accepted == s.accepted ==> t == s)
            && (t.accepted > s.accepted ==> |t.tasks| == if |s.tasks| < threads then |s.tasks| + 1 else threads)
            && t.workers == s.workers && t.executing == s.executing && t.finished == s.finished && t.stop == s.stop
  {
    hide Run, Busy;
    RunKeepsInv(threads, actions);
    RunAppend(threads, actions, Enqueue);
    var s, t := Run(threads, actions), Run(threads, actions + [Enqueue]);
    assert |t.dropped| <= |s.dropped| || |t.dropped| == |s.dropped| + 1;
  }

  /** The pool is stopped exactly when its destructor has stopped it. */
  lemma {:induction false} StoppedIff(threads: nat, actions: seq<Action>)
    ensures Run(threads, actions).stop <==> Stop in actions
    decreases |actions|
  {
    if actions != [] {
      var before := actions[..|actions| - 1];
      StoppedIff(threads, before);
      assert actions == before + [actions[|actions| - 1]];
    }
  }

  predicate Same(s: Pool, t: Pool) {
    && t.tasks == s.tasks && t.stop == s.stop && t.accepted == s.accepted && t.dropped == s.dropped
    && t.finished == s.finished
  }

  predicate OthersSame(s: Pool, t: Pool, i: nat) {
    |t.workers| == |s.workers| && forall j :: 0 <= j < |s.workers| && j != i ==> t.workers[j] == s.workers[j]
  }

  /** The worker's half of `WorkerMoves`. */
  predicate TakesOldest(s: Pool, t: Pool, i: nat)
    requires i < |s.workers| == |t.workers|
  {
    && t.workers[i].Running? && t.workers[i].task + |s.tasks| == s.accepted && |t.tasks| == |s.tasks| - 1
    && Same(s, t.(tasks := s.tasks)) && t.executing == s.executing + 1
  }

  /** What a worker does, and when: one that waits takes the oldest queued task while there is one, and
      leaves only a stopped pool with nothing queued; one that runs finishes the task it took; one whose
      task has returned waits again. */
  lemma WorkerMoves(threads: nat, actions: seq<Action>, i: nat)
    requires i < threads == |Run(threads, actions).workers|
    ensures var s, t := Run(threads, actions), Run(threads, actions + [Take(i)]);
            && |t.workers| == threads && OthersSame(s, t, i)
            && (if s.workers[i].Waiting? && s.tasks != [] then TakesOldest(s, t, i) else t == s)
    ensures var s, t := Run(threads, actions), Run(threads, actions + [Return(i)]);
            && |t.workers| == threads && OthersSame(s, t, i)
            && (if s.workers[i].Running? then
                  && t.workers[i].Ran? && |t.finished| == |s.finished| + 1
                  && t.finished[|s.finished|] == s.workers[i].task && s.finished <= t.finished
                  && Same(s, t.(finished := s.finished)) && t.executing == s.executing
                else t == s)
    ensures var s, t := Run(threads, actions), Run(threads, actions + [Release(i)]);
            && |t.workers| == threads && OthersSame(s, t, i)
            && (if s.workers[i].Ran? then t.workers[i].Waiting? && Same(s, t) && t.executing == s.executing - 1
                else t == s)
    ensures var s, t := Run(threads, actions), Run(threads, actions + [Exit(i)]);
            && |t.workers| == threads && OthersSame(s, t, i)
            && (if s.workers[i].Waiting? && s.tasks == [] && Stop in actions then
                  t.workers[i].Exited? && Same(s, t) && t.executing == s.executing
                else t == s)
  {
    hide Run, Busy;
    RunKeepsInv(threads, actions);
    StoppedIff(threads, actions);
    RunAppend(threads, actions, Take(i));
    RunAppend(threads, actions, Return(i));
    RunAppend(threads, actions, Release(i));
    RunAppend(threads, actions, Exit(i));
  }

  /** No worker is ever stuck: it has a step unless it has exited, or waits for a task of a pool that is
      not stopped. */
  lemma WorkerStuckIff(threads: nat, actions: seq<Action>, i: nat)
    requires i < threads == |Run(threads, actions).workers|
    ensures var s := Run(threads, actions);
            (forall a :: a in {Take(i), Return(i), Release(i), Exit(i)} ==> Run(threads, actions + [a]) == s)
            <==> s.workers[i].Exited? || (s.workers[i].Waiting? && s.tasks == [] && Stop !in actions)
  {
    hide Run, Same, OthersSame;
    WorkerMoves(threads, actions, i);
    var s := Run(threads, actions);
    var worker := {Take(i), Return(i), Release(i), Exit(i)};
    if forall a :: a in worker ==> Run(threads, actions + [a]) == s {
      assert Take(i) in worker && Return(i) in worker && Release(i) in worker && Exit(i) in worker;
      assert Run(threads, actions + [Take(i)]) == s && Run(threads, actions + [Return(i)]) == s;
      assert Run(threads, actions + [Release(i)]) == s && Run(threads, actions + [Exit(i)]) == s;
    }
  }

  /** The steps a worker of a stopped pool has left, weighed so that each one taken makes them fewer. */
  function Weight(w: Worker): nat {
    match w
    case Exited => 0
    case Waiting => 1
    case Ran => 2
    case Running(_) => 3
  }

  function Left(workers: seq<Worker>): nat {
    if workers == [] then 0 else Weight(workers[0]) + Left(workers[1..])
  }

  lemma {:induction false} LeftUpdate(workers: seq<Worker>, i: nat, w: Worker)
    requires i < |workers|
    ensures Left(workers[i := w]) + Weight(workers[i]) == Left(workers) + Weight(w)
  {
    if i == 0 {
      assert workers[0 := w][1..] == workers[1..];
    } else {
      LeftUpdate(workers[1..], i - 1, w);
      assert workers[i := w][1..] == workers[1..][i - 1 := w];
    }
  }

  function Work(s: Pool): nat { 4 * |s.tasks| + Left(s.workers) }

  /** Some step of a worker that has not exited takes a stopped pool nearer to its end. */
  lemma StoppedGoesOn(s: Pool, i: nat) returns (a: Action)
    requires s.stop && i < |s.workers| && !s.workers[i].Exited?
    ensures Work(Apply(s, a)) < Work(s) && Apply(s, a).stop
  {
    a := match s.workers[i]
      case Waiting => if s.tasks != [] then Take(i) else Exit(i)
      case Running(_) => Return(i)
      case _ => Release(i);
    var t := Apply(s, a);
    assert t.workers == s.workers[i := t.workers[i]];
    assert Weight(t.workers[i]) + 4 * |t.tasks| < Weight(s.workers[i]) + 4 * |s.tasks|;
    LeftUpdate(s.workers, i, t.workers[i]);
  }

  /** The destructor can always finish: whatever has happened, once it has stopped the pool the workers
      can go on until all of them have exited. */
  lemma {:induction false} JoinIsReachable(threads: nat, actions: seq<Action>) returns (more: seq<Action>)
    requires Stop in actions
    ensures Joined(Run(threads, actions + more))
    decreases Work(Run(threads, actions))
  {
    hide Apply, Work;
    var s := Run(threads, actions);
    StoppedIff(threads, actions);
    if Joined(s) {
      more := [];
      assert actions + more == actions;
    } else {
      var i :| 0 <= i < |s.workers| && !s.workers[i].Exited?;
      var a := StoppedGoesOn(s, i);
      RunAppend(threads, actions, a);
      var rest := JoinIsReachable(threads, actions + [a]);
      more := [a] + rest;
      assert actions + more == (actions + [a]) + rest;
    }
  }

  /** In no run is an empty queue popped, exactly when the pool has workers. */
  lemma PopsEmptyIff(threads: nat)
    ensures threads > 0 <==> forall actions :: !PopsEmpty(Run(threads, actions))
  {
    hide Inv;
    if threads > 0 {
      forall actions ensures !PopsEmpty(Run(threads, actions)) {
        RunKeepsInv(threads, actions);
      }
    } else {
      assert PopsEmpty(Run(threads, []));
    }
  }

  /** Every accepted task is in exactly one place, once: dropped, queued, held by one worker, or
      finished.  No task runs twice and none gets lost. */
  lemma {:induction false} ExactlyOnePlace(threads: nat, actions: seq<Action>, k: nat)
    ensures var s := Run(threads, actions); Places(s, k) == One(k < s.accepted)
    decreases |actions|
  {
    if actions == [] {
      NoneBusy(Init(threads).workers);
      NothingHeld(Init(threads).workers, k);
    } else {
      hide Apply, Places;
      ExactlyOnePlace(threads, actions[..|actions| - 1], k);
      var s, a := Run(threads, actions[..|actions| - 1]), actions[|actions| - 1];
      PlacesStep(s, a, k);
      AcceptedStep(s, a);
    }
  }

  lemma AcceptedStep(s: Pool, a: Action)
    ensures s.accepted <= Apply(s, a).accepted <= s.accepted + 1
  {
  }

  /** The counter is the number of workers between taking a task and lowering it. */
  lemma ExecutingIsBusy(threads: nat, actions: seq<Action>)
    ensures Run(threads, actions).executing == Busy(Run(threads, actions).workers)
  {
    RunKeepsInv(threads, actions);
  }

  /** When `wait` returns, nothing is queued or held: every accepted task is finished, once, or
      was dropped. */
  lemma WaitMeansIdle(threads: nat, actions: seq<Action>, k: nat)
    requires WaitReturns(Run(threads, actions)) && k < Run(threads, actions).accepted
    ensures var s := Run(threads, actions);
            && s.tasks == [] && Holding(s.workers, k) == 0
            && Count(s.dropped, k) + Count(s.finished, k) == 1 && (k in s.finished <==> k !in s.dropped)
  {
    var s := Run(threads, actions);
    RunKeepsInv(threads, actions);
    NothingHeld(s.workers, k);
    ExactlyOnePlace(threads, actions, k);
    CountIn(s.finished, k);
    CountIn(s.dropped, k);
  }

  /** When the destructor has joined the workers of a pool that has any, every task that was not
      dropped has finished. */
  lemma JoinMeansDrained(threads: nat, actions: seq<Action>, k: nat)
    requires threads > 0 && Joined(Run(threads, actions)) && k < Run(threads, actions).accepted
    ensures var s := Run(threads, actions);
            s.tasks == [] && Count(s.finished, k) == 1 - Count(s.dropped, k) && (k in s.finished <==> k !in s.dropped)
  {
    var s := Run(threads, actions);
    RunKeepsInv(threads, actions);
    assert s.workers[0].Exited?;
    NoneBusy(s.workers);
    WaitMeansIdle(threads, actions, k);
  }

  // ---------------------------------------------------------------- the class

  datatype Accepted = Accepted(task: nat) | EnqueueOnStopped | PopOfEmpty

  class WorkerPool {
    var tasks: seq<nat>
    var stop: bool
    var executing: int
    var workers: seq<Worker>
    var accepted: nat
    ghost var dropped: seq<nat>
    ghost var finished: seq<nat>

    ghost function View(): Pool
      reads this
    {
      Pool(tasks, stop, executing, workers, accepted, dropped, finished)
    }

    constructor (threads: nat)
      ensures View() == Init(threads)
    {
      tasks, stop, executing, accepted := [], false, 0, 0;
      workers := seq(threads, _ => Waiting);
      dropped, finished := [], [];
    }

    /** `enqueue` */
    method EnqueueTask() returns (r: Accepted)
      modifies this
      ensures View() == Apply(old(View()), Enqueue)
      ensures r == if old(stop) then EnqueueOnStopped
                   else if old(PopsEmpty(View())) then PopOfEmpty
                   else Accepted(old(accepted))
    {
      if stop {
        return EnqueueOnStopped;
      }
      if |tasks| >= |workers| {
        if tasks == [] {
          return PopOfEmpty;
        }
        dropped := dropped + [tasks[0]];
        tasks := tasks[1..];
      }
      tasks := tasks + [accepted];
      r := Accepted(accepted);
      accepted := accepted + 1;
    }

    /** A worker woken with a task in the queue takes it; woken by `stop` with none, it exits. */
    method WorkerWakes(i: nat) returns (exits: bool)
      requires i < |workers| && workers[i].Waiting? && (stop || tasks != [])
      modifies this
      ensures exits == (old(stop) && old(tasks) == [])
      ensures View() == Apply(old(View()), if exits then Exit(i) else Take(i))
    {
      if stop && tasks == [] {
        workers := workers[i := Exited];
        return true;
      }
      workers := workers[i := Running(tasks[0])];
      tasks := tasks[1..];
      executing := executing + 1;
      exits := false;
    }

    /** The task has returned. */
    method TaskReturns(i: nat)
      requires i < |workers| && workers[i].Running?
      modifies this`workers, this`finished
      ensures View() == Apply(old(View()), Return(i))
    {
      finished := finished + [workers[i].task];
      workers := workers[i := Ran];
    }

    /** The worker lowers the counter and learns whether to wake `wait`. */
    method WorkerReleases(i: nat) returns (notify: bool)
      requires i < |workers| && workers[i].Ran?
      modifies this`workers, this`executing
      ensures View() == Apply(old(View()), Release(i))
      ensures notify == WaitReturns(View())
    {
      executing := executing - 1;
      workers := workers[i := Waiting];
      notify := |tasks| + executing == 0;
    }

    /** The critical section of the destructor. */
    method StopPool()
      modifies this`stop
      ensures View() == Apply(old(View()), Stop)
    {
      stop := true;
    }
  }
}
