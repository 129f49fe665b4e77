/** The timed task loop of AsyncIoEventLoop in async_io.cpp.  Each call takes the clock reading it
    makes as a parameter; a task is named by the order in which it was scheduled. */
module EventLoop {

  import opened Common

  datatype Task = Task(id: nat, executeTime: int, recurring: bool, interval: int)

  predicate Due(t: Task, now: int) { t.executeTime <= now }

  /** The tasks that are due, in list order. */
  function Ready(tasks: seq<Task>, now: int): seq<Task> {
    if tasks == [] then []
    else (if Due(tasks[0], now) then [tasks[0]] else []) + Ready(tasks[1..], now)
  }

  /** What one due or waiting task leaves in the list. */
  function Kept(t: Task, now: int): seq<Task> {
    if !Due(t, now) then [t]
    else if t.recurring then [t.(executeTime := now + t.interval)]
    else []
  }

  /** The list afterwards: due one-shot tasks are gone, due recurring ones moved on, and the order
      is the old one. */
  function Remaining(tasks: seq<Task>, now: int): seq<Task> {
    if tasks == [] then [] else Kept(tasks[0], now) + Remaining(tasks[1..], now)
  }

  // ---------------------------------------------------------------- histories

  /** What a task was scheduled as: when it may first run, and for recurring ones the interval. */
  datatype Birth = Birth(recurring: bool, due: int, interval: int)

  datatype Started = Started(id: nat, time: int)

  datatype Loop = Loop(tasks: seq<Task>, births: seq<Birth>, log: seq<Started>)

  datatype Call =
    | Schedule(now: int, delay: int)
    | ScheduleRecurring(now: int, interval: int)
    | RunOnce(now: int)

  function Starts(ready: seq<Task>, now: int): (s: seq<Started>)
    ensures |s| == |ready|
  {
    seq(|ready|, i requires 0 <= i < |ready| => Started(ready[i].id, now))
  }

  /** A one-shot task's interval is never read; it is left as the delay. */
  function Apply(l: Loop, c: Call): Loop {
    match c
    case Schedule(now, delay) =>
      l.(tasks := l.tasks + [Task(|l.births|, now + delay, false, delay)],
         births := l.births + [Birth(false, now + delay, delay)])
    case ScheduleRecurring(now, interval) =>
      l.(tasks := l.tasks + [Task(|l.births|, now + interval, true, interval)],
         births := l.births + [Birth(true, now + interval, interval)])
    case RunOnce(now) =>
      l.(tasks := Remaining(l.tasks, now), log := l.log + Starts(Ready(l.tasks, now), now))
  }

  function Run(calls: seq<Call>): Loop
    decreases |calls|
  {
    if calls == [] then Loop([], [], []) else Apply(Run(calls[..|calls| - 1]), calls[|calls| - 1])
  }

  /** The entries of task `k`. */
  function Of(tasks: seq<Task>, k: nat): seq<Task> {
    if tasks == [] then [] else (if tasks[0].id == k then [tasks[0]] else []) + Of(tasks[1..], k)
  }

  /** The times at which task `k` was started. */
  function Times(log: seq<Started>, k: nat): seq<int> {
    if log == [] then [] else (if log[0].id == k then [log[0].time] else []) + Times(log[1..], k)
  }

  // ---------------------------------------------------------------- one task at a time

  lemma {:induction false} OfAppend(a: seq<Task>, b: seq<Task>, k: nat)
    ensures Of(a + b, k) == Of(a, k) + Of(b, k)
  {
    if a == [] {
      assert a + b == b;
      Assoc(Of(b, k), [], []);
    } else {
      assert (a + b)[1..] == a[1..] + b;
      OfAppend(a[1..], b, k);
      Assoc(if a[0].id == k then [a[0]] else [], Of(a[1..], k), Of(b, k));
    }
  }

  lemma {:induction false} TimesAppend(a: seq<Started>, b: seq<Started>, k: nat)
    ensures Times(a + b, k) == Times(a, k) + Times(b, k)
  {
    if a == [] {
      assert a + b == b;
      Assoc(Times(b, k), [], []);
    } else {
      assert (a + b)[1..] == a[1..] + b;
      TimesAppend(a[1..], b, k);
      Assoc(if a[0].id == k then [a[0].time] else [], Times(a[1..], k), Times(b, k));
    }
  }

  lemma Single(t: Task, rest: seq<Task>, k: nat, now: int)
    ensures Of([t] + rest, k) == (if t.id == k then [t] else []) + Of(rest, k)
    ensures Remaining([t] + rest, now) == Kept(t, now) + Remaining(rest, now)
    ensures Ready([t] + rest, now) == (if Due(t, now) then [t] else []) + Ready(rest, now)
  {
    assert ([t] + rest)[1..] == rest;
  }

  lemma OfKept(t: Task, k: nat, now: int)
    ensures Of(Kept(t, now), k) == if t.id == k then Kept(t, now) else []
  {
    if Kept(t, now) != [] {
      Single(Kept(t, now)[0], [], k, now);
      assert Kept(t, now) == [Kept(t, now)[0]] + [];
    }
  }

  /** What `RunOnce` does to the entries of one task depends on those entries alone. */
  lemma {:induction false} RemainingOf(tasks: seq<Task>, k: nat, now: int)
    ensures Of(Remaining(tasks, now), k) == Remaining(Of(tasks, k), now)
  {
    if tasks != [] {
      var t, rest := tasks[0], tasks[1..];
      RemainingOf(rest, k, now);
      OfAppend(Kept(t, now), Remaining(rest, now), k);
      OfKept(t, k, now);
      if t.id == k {
        Single(t, Of(rest, k), k, now);
      } else {
        Assoc(Of(rest, k), [], []);
        Assoc(Of(Remaining(rest, now), k), [], []);
      }
    }
  }

  lemma {:induction false} StartsOf(tasks: seq<Task>, k: nat, now: int)
    ensures Times(Starts(Ready(tasks, now), now), k) == seq(|Ready(Of(tasks, k), now)|, _ => now)
  {
    if tasks != [] {
      var t, rest := tasks[0], tasks[1..];
      StartsOf(rest, k, now);
      if t.id == k {
        Single(t, Of(rest, k), k, now);
      } else {
        Assoc(Of(rest, k), [], []);
      }
      var more := Ready(rest, now);
      if Due(t, now) {
        assert Starts([t] + more, now) == [Started(t.id, now)] + Starts(more, now);
        TimesAppend([Started(t.id, now)], Starts(more, now), k);
        assert Times([Started(t.id, now)], k) == if t.id == k then [now] else [] by {
          assert [Started(t.id, now)][1..] == [];
        }
      } else {
        Assoc(more, [], []);
      }
    }
  }

  /** Started first at `due` or later, and then each time at least `interval` after the last. */
  ghost predicate Spaced(times: seq<int>, due: int, interval: int) {
    && (times != [] ==> due <= times[0])
    && forall i :: 0 < i < |times| ==> times[i - 1] + interval <= times[i]
  }

  function NextTime(times: seq<int>, b: Birth): int {
    if times == [] then b.due else times[|times| - 1] + b.interval
  }

  /** Task `k` has these entries in the list and was started at these times. */
  ghost predicate Consistent(mine: seq<Task>, times: seq<int>, births: seq<Birth>, k: nat) {
    if k >= |births| then mine == [] && times == []
    else
      var b := births[k];
      if b.recurring then
        mine == [Task(k, NextTime(times, b), true, b.interval)] && Spaced(times, b.due, b.interval)
      else
        || (mine == [Task(k, b.due, false, b.interval)] && times == [])
        || (mine == [] && |times| == 1 && b.due <= times[0])
  }

  ghost predicate Inv(l: Loop, k: nat) { Consistent(Of(l.tasks, k), Times(l.log, k), l.births, k) }

  lemma RunOnceKeepsInv(l: Loop, k: nat, now: int)
    requires Inv(l, k)
    ensures Inv(Apply(l, RunOnce(now)), k)
  {
    hide Of, Times, Starts, Ready, Remaining, Consistent;
    RemainingOf(l.tasks, k, now);
    StartsOf(l.tasks, k, now);
    TimesAppend(l.log, Starts(Ready(l.tasks, now), now), k);
    TurnIsConsistent(Of(l.tasks, k), Times(l.log, k), l.births, k, now);
  }

  lemma TurnIsConsistent(mine: seq<Task>, times: seq<int>, births: seq<Birth>, k: nat, now: int)
    requires Consistent(mine, times, births, k)
    ensures Consistent(Remaining(mine, now), times + seq(|Ready(mine, now)|, _ => now), births, k)
  {
    OneOrNone(mine, now);
    var ready := |Ready(mine, now)|;
    hide Ready, Remaining;
    assert times + seq(ready, _ => now) == if ready == 0 then times else times + [now];
  }

  lemma OneOrNone(mine: seq<Task>, now: int)
    requires |mine| <= 1
    ensures Remaining(mine, now) == if mine == [] then [] else Kept(mine[0], now)
    ensures |Ready(mine, now)| == if mine == [] || !Due(mine[0], now) then 0 else 1
  {
    if mine != [] {
      Single(mine[0], [], 0, now);
      assert mine == [mine[0]] + [];
    }
  }

  lemma ScheduleKeepsInv(l: Loop, k: nat, c: Call)
    requires Inv(l, k) && !c.RunOnce?
    ensures Inv(Apply(l, c), k)
  {
    hide Of, Times, Starts, Ready, Remaining;
    var added := Apply(l, c).tasks[|l.tasks|];
    OfAppend(l.tasks, [added], k);
    OfOne(added, k);
  }

  lemma OfOne(t: Task, k: nat)
    ensures Of([t], k) == if t.id == k then [t] else []
  {
    Single(t, [], k, 0);
    assert [t] == [t] + [];
  }

  lemma {:induction false} RunKeepsInv(calls: seq<Call>, k: nat)
    ensures Inv(Run(calls), k)
    decreases |calls|
  {
    if calls != [] {
      hide Inv;
      var c, l := calls[|calls| - 1], Run(calls[..|calls| - 1]);
      RunKeepsInv(calls[..|calls| - 1], k);
      if c.RunOnce? { RunOnceKeepsInv(l, k, c.now); } else { ScheduleKeepsInv(l, k, c); }
    }
  }

  // ---------------------------------------------------------------- the results

  /** What each call that schedules asks for, in order: a one-shot task a delay from now, a recurring one
      an interval from now and then every interval. */
  function Asked(calls: seq<Call>): seq<Birth> {
    if calls == [] then []
    else
      Asked(calls[..|calls| - 1])
      + match calls[|calls| - 1]
        case Schedule(now, delay) => [Birth(false, now + delay, delay)]
        case ScheduleRecurring(now, interval) => [Birth(true, now + interval, interval)]
        case RunOnce(_) => []
  }

  /** The number of the task that call `i` schedules. */
  function NumberOf(calls: seq<Call>, i: nat): nat
    requires i <= |calls|
  {
    |Asked(calls[..i])|
  }

  lemma {:induction false} BirthsAreAsked(calls: seq<Call>)
    ensures Run(calls).births == Asked(calls)
  {
    if calls != [] { BirthsAreAsked(calls[..|calls| - 1]); }
  }

  lemma {:induction false} AskedAt(calls: seq<Call>, i: nat)
    requires i < |calls|
    ensures Asked(calls[..i]) <= Asked(calls)
    ensures !calls[i].RunOnce? ==> |Asked(calls)| > NumberOf(calls, i)
    ensures calls[i].Schedule? ==>
              Asked(calls)[NumberOf(calls, i)] == Birth(false, calls[i].now + calls[i].delay, calls[i].delay)
    ensures calls[i].ScheduleRecurring? ==>
              Asked(calls)[NumberOf(calls, i)] == Birth(true, calls[i].now + calls[i].interval, calls[i].interval)
    decreases |calls|
  {
    var init := calls[..|calls| - 1];
    if i < |init| {
      AskedAt(init, i);
      assert init[..i] == calls[..i];
    } else {
      assert calls[..i] == init;
    }
  }

  /** A task scheduled with a delay runs at most once, never before the delay has passed, and is in the
      list exactly as long as it has not run. */
  lemma OneShotRunsOnce(calls: seq<Call>, i: nat)
    requires i < |calls| && calls[i].Schedule?
    ensures var l, k := Run(calls), NumberOf(calls, i);
            && |Times(l.log, k)| + |Of(l.tasks, k)| == 1
            && (forall t :: t in Times(l.log, k) ==> calls[i].now + calls[i].delay <= t)
            && (forall t :: t in Of(l.tasks, k) ==> t.executeTime == calls[i].now + calls[i].delay)
  {
    hide Run, Of, Times, Asked;
    RunKeepsInv(calls, NumberOf(calls, i));
    BirthsAreAsked(calls);
    AskedAt(calls, i);
  }

  /** A recurring task is never lost, its first run is not before one interval has passed, any two runs
      are at least an interval apart, and the next is due an interval after the last. */
  lemma RecurringStaysAndIsSpaced(calls: seq<Call>, i: nat)
    requires i < |calls| && calls[i].ScheduleRecurring?
    ensures var l, k, interval := Run(calls), NumberOf(calls, i), calls[i].interval;
            var times := Times(l.log, k);
            && (times != [] ==> calls[i].now + interval <= times[0])
            && (forall j :: 0 < j < |times| ==> times[j - 1] + interval <= times[j])
            && |Of(l.tasks, k)| == 1
            && Of(l.tasks, k)[0].executeTime
               == (if times == [] then calls[i].now else times[|times| - 1]) + interval
  {
    hide Run, Of, Times, Asked;
    RunKeepsInv(calls, NumberOf(calls, i));
    BirthsAreAsked(calls);
    AskedAt(calls, i);
  }

  /** Of the tasks scheduled so far a `runOnce` starts exactly the listed ones whose time has come, each
      once and with the clock it reads. */
  lemma RunOnceRunsExactlyTheDue(calls: seq<Call>, k: nat, now: int)
    requires k < |Asked(calls)|
    ensures var l, m := Run(calls), Run(calls + [RunOnce(now)]);
            var mine := Of(l.tasks, k);
            && |mine| <= 1
            && Times(m.log, k) == Times(l.log, k) + if mine != [] && mine[0].executeTime <= now then [now] else []
  {
    hide Of, Times, Ready, Remaining, Starts;
    var l := Run(calls);
    assert (calls + [RunOnce(now)])[..|calls|] == calls;
    RunKeepsInv(calls, k);
    StartsOf(l.tasks, k, now);
    TimesAppend(l.log, Starts(Ready(l.tasks, now), now), k);
    OneOrNone(Of(l.tasks, k), now);
  }

  // ---------------------------------------------------------------- the erase loop

  /** The loop over `all` stands at `it` of what the list has become, with `ready` collected. */
  ghost predicate Pass(all: seq<Task>, now: int, tasks: seq<Task>, it: nat, ready: seq<Task>) {
    && it <= |tasks|
    && Remaining(all, now) == tasks[..it] + Remaining(tasks[it..], now)
    && Ready(all, now) == ready + Ready(tasks[it..], now)
  }

  lemma PassStarts(all: seq<Task>, now: int)
    ensures Pass(all, now, all, 0, [])
  {
    assert all[0..] == all;
    Assoc(Ready(all, now), [], []);
    Assoc(Remaining(all, now), [], []);
  }

  lemma PassStep(all: seq<Task>, now: int, tasks: seq<Task>, it: nat, ready: seq<Task>)
    requires Pass(all, now, tasks, it, ready) && it < |tasks|
    ensures var t := tasks[it];
            && (!Due(t, now) ==> Pass(all, now, tasks, it + 1, ready))
            && (Due(t, now) && t.recurring ==>
                  Pass(all, now, tasks[it := t.(executeTime := now + t.interval)], it + 1, ready + [t]))
            && (Due(t, now) && !t.recurring ==> Pass(all, now, tasks[..it] + tasks[it + 1..], it, ready + [t]))
  {
    hide Due, Ready, Remaining;
    var t, rest := tasks[it], tasks[it + 1..];
    assert tasks[it..] == [t] + rest;
    Single(t, rest, t.id, now);
    Assoc(tasks[..it], Kept(t, now), Remaining(rest, now));
    Assoc(ready, [t], Ready(rest, now));
    Assoc(Ready(rest, now), [], []);
    PassOver(tasks, it, now);
  }

  /** The list after one turn of the loop: the part passed, and the rest. */
  lemma PassOver(tasks: seq<Task>, it: nat, now: int)
    requires it < |tasks|
    ensures var t, rest := tasks[it], tasks[it + 1..];
            && (!Due(t, now) ==> tasks[..it + 1] == tasks[..it] + Kept(t, now))
            && (Due(t, now) && t.recurring ==>
                  var u := tasks[it := t.(executeTime := now + t.interval)];
                  u[..it + 1] == tasks[..it] + Kept(t, now) && u[it + 1..] == rest)
            && (Due(t, now) && !t.recurring ==>
                  var u := tasks[..it] + rest;
                  u[..it] == tasks[..it] + Kept(t, now) && u[it..] == rest)
  {
    hide Due;
  }

  lemma PassEnds(all: seq<Task>, now: int, tasks: seq<Task>, ready: seq<Task>)
    requires Pass(all, now, tasks, |tasks|, ready)
    ensures tasks == Remaining(all, now) && ready == Ready(all, now)
  {
    assert tasks[..|tasks|] == tasks && tasks[|tasks|..] == [];
    Assoc(tasks, [], []);
    Assoc(ready, [], []);
  }

  // ---------------------------------------------------------------- the class

  class AsyncIoEventLoop {
    var scheduledTasks: seq<Task>
    ghost var births: seq<Birth>
    ghost var log: seq<Started>
    var scheduled: nat

    ghost function View(): Loop
      reads this
    {
      Loop(scheduledTasks, births, log)
    }

    ghost predicate Valid()
      reads this
    {
      scheduled == |births|
    }

    constructor ()
      ensures Valid() && View() == Run([])
    {
      scheduledTasks, births, log, scheduled := [], [], [], 0;
    }

    /** `schedule` */
    method ScheduleTask(delay: int, now: int)
      requires Valid()
      modifies this
      ensures Valid() && View() == Apply(old(View()), Schedule(now, delay))
    {
      var st := Task(scheduled, now + delay, false, delay);
      scheduledTasks := scheduledTasks + [st];
      scheduled := scheduled + 1;
      births := births + [Birth(false, now + delay, delay)];
    }

    /** `scheduleRecurring` */
    method ScheduleRecurringTask(interval: int, now: int)
      requires Valid()
      modifies this
      ensures Valid() && View() == Apply(old(View()), ScheduleRecurring(now, interval))
    {
      var st := Task(scheduled, now + interval, true, interval);
      scheduledTasks := scheduledTasks + [st];
      scheduled := scheduled + 1;
      births := births + [Birth(true, now + interval, interval)];
    }

    /** `runOnce`: the erase loop under the lock; `ready` is what is then run, in order. */
    method RunReady(now: int) returns (ready: seq<Task>)
      requires Valid()
      modifies this
      ensures Valid() && View() == Apply(old(View()), RunOnce(now))
      ensures ready == Ready(old(scheduledTasks), now)
    {
      hide Pass, Due;
      ready := [];
      var it := 0;
      PassStarts(scheduledTasks, now);
      while it < |scheduledTasks|
        invariant it <= |scheduledTasks| && Pass(old(scheduledTasks), now, scheduledTasks, it, ready)
        invariant births == old(births) && log == old(log) && scheduled == old(scheduled)
        decreases |scheduledTasks| - it
      {
        PassStep(old(scheduledTasks), now, scheduledTasks, it, ready);
        var t := scheduledTasks[it];
        if Due(t, now) {
          ready := ready + [t];
          if t.recurring {
            scheduledTasks := scheduledTasks[it := t.(executeTime := now + t.interval)];
            it := it + 1;
          } else {
            scheduledTasks := scheduledTasks[..it] + scheduledTasks[it + 1..];
          }
        } else {
          it := it + 1;
        }
      }
      PassEnds(old(scheduledTasks), now, scheduledTasks, ready);
      log := log + Starts(ready, now);
    }
  }
}
