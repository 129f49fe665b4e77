/** The single-producer single-consumer ring of performance_utils.h.

    `push` and `pop` are split into their atomic actions (index loads, the cell access, the
    index store).  A run is any sequence of actions; an action whose thread is elsewhere in its
    code is a no-op, so every sequence of actions is one interleaving and every interleaving is
    one sequence.  The acquire/release pairs make each action see all earlier ones. */
module RingBuffer {

  /** Where the producer is inside `push`, with the locals it has loaded so far. */
  datatype Producer<T> =
    | PushIdle
    | PushHasWrite(value: T, write: nat)   // write_idx_ loaded
    | PushMayStore(value: T, write: nat)   // read_idx_ loaded, not full
    | PushStored(value: T, write: nat)     // cell written, index not yet published

  /** Where the consumer is inside `pop`. */
  datatype Consumer<T> =
    | PopIdle
    | PopHasRead(read: nat)                // read_idx_ loaded
    | PopMayRead(read: nat)                // write_idx_ loaded, not empty
    | PopTaken(value: T, read: nat)        // cell read, index not yet published

  /** `pushed` and `popped` are the values whose push (pop) has returned true, in order. */
  datatype State<T> = State(
    cells: seq<T>, writeIdx: nat, readIdx: nat,
    producer: Producer<T>, consumer: Consumer<T>,
    pushed: seq<T>, popped: seq<T>)

  datatype Action<T> =
    | PushLoadWrite(value: T) | PushLoadRead | PushStoreCell | PushStoreIndex
    | PopLoadRead | PopLoadWrite | PopReadCell | PopStoreIndex

  ghost predicate WellFormed<T>(s: State<T>) {
    && 0 < |s.cells|
    && s.writeIdx < |s.cells| && s.readIdx < |s.cells|
    && (!s.producer.PushIdle? ==> s.producer.write < |s.cells|)
    && (!s.consumer.PopIdle? ==> s.consumer.read < |s.cells|)
  }

  function Init<T>(cells: seq<T>): State<T> {
    State(cells, 0, 0, PushIdle, PopIdle, [], [])
  }

  /** One atomic action. */
  function Apply<T>(s: State<T>, a: Action<T>): (t: State<T>)
    requires WellFormed(s)
    ensures WellFormed(t) && |t.cells| == |s.cells|
  {
    var n := |s.cells|;
    match a
    case PushLoadWrite(v) =>
      if s.producer.PushIdle? then s.(producer := PushHasWrite(v, s.writeIdx)) else s
    case PushLoadRead =>
      if !s.producer.PushHasWrite? then s
      else if (s.producer.write + 1) % n == s.readIdx then s.(producer := PushIdle)
      else s.(producer := PushMayStore(s.producer.value, s.producer.write))
    case PushStoreCell =>
      if !s.producer.PushMayStore? then s
      else s.(cells := s.cells[s.producer.write := s.producer.value],
              producer := PushStored(s.producer.value, s.producer.write))
    case PushStoreIndex =>
      if !s.producer.PushStored? then s
      else s.(writeIdx := (s.producer.write + 1) % n, producer := PushIdle,
              pushed := s.pushed + [s.producer.value])
    case PopLoadRead =>
      if s.consumer.PopIdle? then s.(consumer := PopHasRead(s.readIdx)) else s
    case PopLoadWrite =>
      if !s.consumer.PopHasRead? then s
      else if s.consumer.read == s.writeIdx then s.(consumer := PopIdle)
      else s.(consumer := PopMayRead(s.consumer.read))
    case PopReadCell =>
      if !s.consumer.PopMayRead? then s
      else s.(consumer := PopTaken(s.cells[s.consumer.read], s.consumer.read))
    case PopStoreIndex =>
      if !s.consumer.PopTaken? then s
      else s.(readIdx := (s.consumer.read + 1) % n, consumer := PopIdle,
              popped := s.popped + [s.consumer.value])
  }

  /** The state after an interleaving. */
  function Run<T>(cells: seq<T>, actions: seq<Action<T>>): (s: State<T>)
    requires 0 < |cells|
    ensures WellFormed(s) && |s.cells| == |cells|
    decreases |actions|
  {
    if actions == [] then Init(cells)
    else Apply(Run(cells, actions[..|actions| - 1]), actions[|actions| - 1])
  }

  /** `size()` when both loads see the same state. */
  function Size(capacity: nat, write: nat, read: nat): int {
    if write >= read then write - read else capacity - read + write
  }

  /** The cell `i` places after cell `start`, going round. */
  function Slot(capacity: nat, start: nat, i: nat): nat {
    if start + i < capacity then start + i else start + i - capacity
  }

  /** What the shared memory says is queued: `Size` cells starting at read_idx_, going round. */
  function Contents<T>(s: State<T>): (q: seq<T>)
    requires WellFormed(s)
    ensures |q| == Size(|s.cells|, s.writeIdx, s.readIdx) < |s.cells|
  {
    var n := |s.cells|;
    seq(Size(n, s.writeIdx, s.readIdx),
        i requires 0 <= i < Size(n, s.writeIdx, s.readIdx) => s.cells[Slot(n, s.readIdx, i)])
  }

  /** The bounded FIFO that the ring implements. */
  datatype Fifo<T> = Fifo(queue: seq<T>, accepted: seq<T>, delivered: seq<T>)

  ghost predicate FifoStep<T>(capacity: nat, f: Fifo<T>, g: Fifo<T>) {
    || g == f
    || (g.accepted != [] && |f.queue| < capacity &&
        var v := g.accepted[|g.accepted| - 1];
        g == Fifo(f.queue + [v], f.accepted + [v], f.delivered))
    || (f.queue != [] && g == Fifo(f.queue[1..], f.accepted, f.delivered + [f.queue[0]]))
  }

  function Abstract<T>(s: State<T>): Fifo<T>
    requires WellFormed(s)
  {
    Fifo(Contents(s), s.pushed, s.popped)
  }

  // ---------------------------------------------------------------- the invariant

  /** Pushed and not yet popped is what lies between the indices; the locals of both threads
      are still true of the shared fields, and each thread's guard still holds. */
  ghost predicate Inv<T>(s: State<T>) {
    && WellFormed(s)
    && s.pushed == s.popped + Contents(s)
    && (!s.producer.PushIdle? ==> s.producer.write == s.writeIdx)
    && (s.producer.PushMayStore? || s.producer.PushStored? ==> |Contents(s)| < |s.cells| - 1)
    && (s.producer.PushStored? ==> s.cells[s.producer.write] == s.producer.value)
    && (!s.consumer.PopIdle? ==> s.consumer.read == s.readIdx)
    && (s.consumer.PopMayRead? || s.consumer.PopTaken? ==> Contents(s) != [])
    && (s.consumer.PopTaken? ==> s.consumer.value == Contents(s)[0])
  }

  lemma NextIndex(n: nat, i: nat)
    requires i < n
    ensures (i + 1) % n == Slot(n, i, 1)
  {
    if i + 1 == n { assert (i + 1) % n == 0; } else { assert (i + 1) % n == i + 1; }
  }

  lemma StoreIndexEnqueues<T>(s: State<T>)
    requires Inv(s) && s.producer.PushStored?
    ensures Contents(Apply(s, PushStoreIndex)) == Contents(s) + [s.producer.value]
  {
    NextIndex(|s.cells|, s.writeIdx);
  }

  lemma StoreIndexDequeues<T>(s: State<T>)
    requires Inv(s) && s.consumer.PopTaken?
    ensures Contents(Apply(s, PopStoreIndex)) == Contents(s)[1..]
  {
    NextIndex(|s.cells|, s.readIdx);
    ContentsTail(s, Apply(s, PopStoreIndex));
  }

  lemma ContentsTail<T>(s: State<T>, t: State<T>)
    requires WellFormed(s) && WellFormed(t) && Contents(s) != []
    requires t.cells == s.cells && t.writeIdx == s.writeIdx && t.readIdx == Slot(|s.cells|, s.readIdx, 1)
    ensures Contents(t) == Contents(s)[1..]
  {
  }

  /** The other actions do not change the queue. */
  lemma ContentsStay<T>(s: State<T>, a: Action<T>)
    requires Inv(s)
    requires !(a.PushStoreIndex? && s.producer.PushStored?) && !(a.PopStoreIndex? && s.consumer.PopTaken?)
    ensures Contents(Apply(s, a)) == Contents(s)
  {
    if a.PushStoreCell? && s.producer.PushMayStore? {
      FreeCell(s);
    }
  }

  /** The cell to be written lies outside the queued ones. */
  lemma FreeCell<T>(s: State<T>)
    requires WellFormed(s) && |Contents(s)| < |s.cells|
    ensures forall i :: 0 <= i < |Contents(s)| ==> Slot(|s.cells|, s.readIdx, i) != s.writeIdx
  {
  }

  lemma FirstCell<T>(s: State<T>)
    requires WellFormed(s) && Contents(s) != []
    ensures Contents(s)[0] == s.cells[s.readIdx]
  {
  }

  lemma PushKeepsInv<T>(s: State<T>, a: Action<T>)
    requires Inv(s) && (a.PushLoadWrite? || a.PushLoadRead? || a.PushStoreCell? || a.PushStoreIndex?)
    ensures Inv(Apply(s, a))
  {
    hide Contents;
    if a.PushStoreIndex? && s.producer.PushStored? {
      StoreIndexEnqueues(s);
      if s.consumer.PopTaken? { assert (Contents(s) + [s.producer.value])[0] == Contents(s)[0]; }
    } else {
      ContentsStay(s, a);
      if s.producer.PushHasWrite? { FullMeans(s); }
    }
  }

  lemma PopKeepsInv<T>(s: State<T>, a: Action<T>)
    requires Inv(s) && (a.PopLoadRead? || a.PopLoadWrite? || a.PopReadCell? || a.PopStoreIndex?)
    ensures Inv(Apply(s, a))
  {
    hide Contents;
    if a.PopStoreIndex? && s.consumer.PopTaken? {
      StoreIndexDequeues(s);
    } else {
      ContentsStay(s, a);
      if s.consumer.PopMayRead? { FirstCell(s); }
    }
  }

  lemma ApplyKeepsInv<T>(s: State<T>, a: Action<T>)
    requires Inv(s)
    ensures Inv(Apply(s, a))
  {
    hide Inv, Apply;
    if a.PushLoadWrite? || a.PushLoadRead? || a.PushStoreCell? || a.PushStoreIndex? {
      PushKeepsInv(s, a);
    } else {
      PopKeepsInv(s, a);
    }
  }

  lemma {:induction false} RunKeepsInv<T>(cells: seq<T>, actions: seq<Action<T>>)
    requires 0 < |cells|
    ensures Inv(Run(cells, actions))
    decreases |actions|
  {
    if actions != [] {
      RunKeepsInv(cells, actions[..|actions| - 1]);
      ApplyKeepsInv(Run(cells, actions[..|actions| - 1]), actions[|actions| - 1]);
    }
  }

  lemma FullMeans<T>(s: State<T>)
    requires Inv(s) && s.producer.PushHasWrite?
    ensures (s.producer.write + 1) % |s.cells| == s.readIdx <==> |Contents(s)| == |s.cells| - 1
  {
    NextIndex(|s.cells|, s.writeIdx);
  }

  // ---------------------------------------------------------------- the results

  /** In every interleaving the ring is a FIFO of capacity `Capacity - 1`: the values delivered
      followed by the cells between the indices are the values accepted, in order. */
  lemma RingIsFifo<T>(cells: seq<T>, actions: seq<Action<T>>)
    requires 0 < |cells|
    ensures var s := Run(cells, actions);
            s.popped + Contents(s) == s.pushed && |Contents(s)| <= |cells| - 1
  {
    RunKeepsInv(cells, actions);
  }

  /** Every atomic action is one step of the bounded FIFO or leaves it unchanged; the two index
      stores are where the queue changes. */
  lemma ActionRefinesFifo<T>(cells: seq<T>, actions: seq<Action<T>>, a: Action<T>)
    requires 0 < |cells|
    ensures var s := Run(cells, actions);
            var t := Apply(s, a);
            && FifoStep(|cells| - 1, Abstract(s), Abstract(t))
            && (Abstract(t) != Abstract(s) ==> a.PushStoreIndex? || a.PopStoreIndex?)
  {
    hide Run, Contents;
    var s := Run(cells, actions);
    var t := Apply(s, a);
    RunKeepsInv(cells, actions);
    if a.PushStoreIndex? && s.producer.PushStored? {
      StoreIndexEnqueues(s);
      assert t.pushed[|t.pushed| - 1] == s.producer.value;
    } else if a.PopStoreIndex? && s.consumer.PopTaken? {
      StoreIndexDequeues(s);
    } else {
      ContentsStay(s, a);
    }
  }

  /** `push` gives up exactly when the queue is full at its load of read_idx_, however stale its
      own write index is. */
  lemma PushFailsIffFull<T>(cells: seq<T>, actions: seq<Action<T>>)
    requires 0 < |cells|
    requires Run(cells, actions).producer.PushHasWrite?
    ensures var s := Run(cells, actions);
            Apply(s, PushLoadRead).producer.PushIdle? <==> |Contents(s)| == |cells| - 1
  {
    hide Run, Contents, Size;
    RunKeepsInv(cells, actions);
    FullMeans(Run(cells, actions));
  }

  /** `pop` gives up exactly when the queue is empty at its load of write_idx_. */
  lemma PopFailsIffEmpty<T>(cells: seq<T>, actions: seq<Action<T>>)
    requires 0 < |cells|
    requires Run(cells, actions).consumer.PopHasRead?
    ensures var s := Run(cells, actions);
            Apply(s, PopLoadWrite).consumer.PopIdle? <==> Contents(s) == []
  {
    hide Run, Contents;
    RunKeepsInv(cells, actions);
  }

  /** How far `push` has got, and which of its actions comes next. */
  function PushTurn<T>(p: Producer<T>): nat {
    if p.PushIdle? then 0 else if p.PushHasWrite? then 1 else if p.PushMayStore? then 2 else 3
  }

  function PopTurn<T>(c: Consumer<T>): nat {
    if c.PopIdle? then 0 else if c.PopHasRead? then 1 else if c.PopMayRead? then 2 else 3
  }

  /** The threads take turns with themselves alone: an action of a `push` does nothing unless it is the
      next of its thread, which it then takes one further, or back to the start when it gives up or has
      published; it carries the same value along, and never moves the other thread. */
  lemma PushTakesTurns<T>(cells: seq<T>, actions: seq<Action<T>>, a: Action<T>, n: nat)
    requires 0 < |cells|
    requires n == if a.PushLoadWrite? then 0 else if a.PushLoadRead? then 1 else if a.PushStoreCell? then 2 else 3
    requires a.PushLoadWrite? || a.PushLoadRead? || a.PushStoreCell? || a.PushStoreIndex?
    ensures var s := Run(cells, actions);
            var t := Apply(s, a);
            && t.consumer == s.consumer && t.readIdx == s.readIdx && t.popped == s.popped
            && (PushTurn(s.producer) != n ==> t == s)
            && (PushTurn(s.producer) == n ==>
                  PushTurn(t.producer) == if n == 3 || (n == 1 && |Contents(s)| == |cells| - 1) then 0 else n + 1)
            && (!t.producer.PushIdle? && t != s ==>
                  t.producer.value == if a.PushLoadWrite? then a.value else s.producer.value)
  {
    hide Run, Contents;
    RunKeepsInv(cells, actions);
    if Run(cells, actions).producer.PushHasWrite? { FullMeans(Run(cells, actions)); }
  }

  lemma PopTakesTurns<T>(cells: seq<T>, actions: seq<Action<T>>, a: Action<T>, n: nat)
    requires 0 < |cells|
    requires n == if a.PopLoadRead? then 0 else if a.PopLoadWrite? then 1 else if a.PopReadCell? then 2 else 3
    requires a.PopLoadRead? || a.PopLoadWrite? || a.PopReadCell? || a.PopStoreIndex?
    ensures var s := Run(cells, actions);
            var t := Apply(s, a);
            && t.producer == s.producer && t.writeIdx == s.writeIdx && t.pushed == s.pushed && t.cells == s.cells
            && (PopTurn(s.consumer) != n ==> t == s)
            && (PopTurn(s.consumer) == n ==>
                  PopTurn(t.consumer) == if n == 3 || (n == 1 && Contents(s) == []) then 0 else n + 1)
  {
    hide Run, Contents;
    RunKeepsInv(cells, actions);
  }

  /** No data race: the cell the producer is about to write is none of the queued cells, the
      first of which is the one the consumer is about to read. */
  lemma NoSharedCell<T>(cells: seq<T>, actions: seq<Action<T>>)
    requires 0 < |cells|
    ensures var s := Run(cells, actions);
            && (s.producer.PushMayStore? && s.consumer.PopMayRead? ==> s.producer.write != s.consumer.read)
            && (s.producer.PushMayStore? ==>
                  forall i :: 0 <= i < |Contents(s)| ==> s.producer.write != Slot(|cells|, s.readIdx, i))
  {
    RunKeepsInv(cells, actions);
  }

  // ---------------------------------------------------------------- size from outside

  /** The indices count the published pushes and pops, round the ring. */
  ghost predicate Counted<T>(s: State<T>) {
    0 < |s.cells| && s.writeIdx == |s.pushed| % |s.cells| && s.readIdx == |s.popped| % |s.cells|
  }

  lemma ModNext(a: nat, n: nat)
    requires n > 0
    ensures (a % n + 1) % n == (a + 1) % n
  {
    var q, r := a / n, a % n;
    if r + 1 < n {
      ModIs(a + 1, q, r + 1, n);
      ModIs(r + 1, 0, r + 1, n);
    } else {
      ModIs(a + 1, q + 1, 0, n);
      ModIs(n, 1, 0, n);
    }
  }

  lemma ModIs(x: int, q: int, r: nat, n: nat)
    requires x == n * q + r && r < n
    ensures x % n == r
  {
    var d := x / n - q;
    assert x == n * (x / n) + x % n;
    assert n * (x / n) - n * q == n * d;
    MulAway(n, d);
  }

  lemma MulAway(n: nat, d: int)
    ensures d > 0 ==> n * d >= n
    ensures d < 0 ==> n * d <= 0 - n
  {
    if d > 0 {
      MulAtLeast(n, d);
    } else if d < 0 {
      MulAtLeast(n, 0 - d);
      assert n * (0 - d) == 0 - n * d;
    }
  }

  lemma {:induction false} MulAtLeast(n: nat, e: nat)
    requires e > 0
    ensures n * e >= n
  {
    if e > 1 {
      MulAtLeast(n, e - 1);
      assert n * e == n * (e - 1) + n;
    }
  }

  /** What the two loads give, of `a` pushes and `b` pops published. */
  lemma SizeOfCounts(n: nat, a: nat, b: nat)
    requires n > 0
    ensures Size(n, a % n, b % n) == (a - b) % n
  {
    var w, r, q := a % n, b % n, a / n - b / n;
    assert a - b == n * q + (w - r);
    if w >= r { ModIs(a - b, q, w - r, n); } else { ModIs(a - b, q - 1, n + w - r, n); }
  }

  lemma CongruentIff(x: int, d: nat, n: nat)
    requires d < n
    ensures x % n == d <==> (d - x) % n == 0
  {
    if x % n == d {
      ModIs(d - x, -(x / n), 0, n);
    }
    if (d - x) % n == 0 {
      ModIs(x, -((d - x) / n), d, n);
    }
  }

  /** The threads' own copies of their indices are current. */
  ghost predicate LocalsCurrent<T>(s: State<T>) {
    && WellFormed(s)
    && (!s.producer.PushIdle? ==> s.producer.write == s.writeIdx)
    && (!s.consumer.PopIdle? ==> s.consumer.read == s.readIdx)
  }

  lemma InvLocals<T>(s: State<T>)
    requires Inv(s)
    ensures LocalsCurrent(s)
  {
    hide Contents;
  }

  lemma ApplyKeepsCounted<T>(s: State<T>, a: Action<T>)
    requires LocalsCurrent(s) && Counted(s)
    ensures Counted(Apply(s, a)) && s.pushed <= Apply(s, a).pushed && s.popped <= Apply(s, a).popped
    ensures !a.PushStoreIndex? ==> Apply(s, a).pushed == s.pushed
    ensures !a.PopStoreIndex? ==> Apply(s, a).popped == s.popped
  {
    match a
    case PushStoreIndex => ModNext(|s.pushed|, |s.cells|);
    case PopStoreIndex => ModNext(|s.popped|, |s.cells|);
    case _ =>
  }

  lemma {:induction false} RunKeepsCounted<T>(cells: seq<T>, actions: seq<Action<T>>)
    requires 0 < |cells|
    ensures Counted(Run(cells, actions))
    decreases |actions|
  {
    hide Inv, Apply, LocalsCurrent;
    if actions == [] {
      ModIs(0, 0, 0, |cells|);
    } else {
      RunKeepsCounted(cells, actions[..|actions| - 1]);
      RunKeepsInv(cells, actions[..|actions| - 1]);
      InvLocals(Run(cells, actions[..|actions| - 1]));
      ApplyKeepsCounted(Run(cells, actions[..|actions| - 1]), actions[|actions| - 1]);
    }
  }

  lemma {:induction false} RunGrows<T>(cells: seq<T>, before: seq<Action<T>>, between: seq<Action<T>>)
    requires 0 < |cells|
    ensures var s, t := Run(cells, before), Run(cells, before + between);
            && s.pushed <= t.pushed && s.popped <= t.popped
            && ((forall a :: a in between ==> !a.PushStoreIndex?) ==> t.pushed == s.pushed)
            && ((forall a :: a in between ==> !a.PopStoreIndex?) ==> t.popped == s.popped)
    decreases |between|
  {
    hide Inv, Apply, Counted, LocalsCurrent;
    if between == [] {
      assert before + between == before;
    } else {
      var init, a := between[..|between| - 1], between[|between| - 1];
      assert between == init + [a] && before + between == before + init + [a];
      RunGrows(cells, before, init);
      RunKeepsInv(cells, before + init);
      RunKeepsCounted(cells, before + init);
      InvLocals(Run(cells, before + init));
      ApplyKeepsCounted(Run(cells, before + init), a);
      RunAppend(cells, before + init, a);
    }
  }

  /** `size()` loads write_idx_ and then read_idx_, and any number of actions may come between.  Its
      answer is the pushes published before the first load less the pops published before the second,
      modulo the capacity. */
  lemma SizeAnswers<T>(cells: seq<T>, before: seq<Action<T>>, between: seq<Action<T>>)
    requires 0 < |cells|
    ensures var s, t := Run(cells, before), Run(cells, before + between);
            Size(|cells|, s.writeIdx, t.readIdx) == (|s.pushed| - |t.popped|) % |cells|
  {
    hide Run, Size;
    var s, t := Run(cells, before), Run(cells, before + between);
    RunKeepsCounted(cells, before);
    RunKeepsCounted(cells, before + between);
    SizeOfCounts(|cells|, |s.pushed|, |t.popped|);
  }

  /** So it is the length at the second load exactly when the pushes published in between are a
      multiple of the capacity, and the length at the first exactly when the pops are. */
  lemma SizeExactIff<T>(cells: seq<T>, before: seq<Action<T>>, between: seq<Action<T>>)
    requires 0 < |cells|
    ensures var s, t := Run(cells, before), Run(cells, before + between);
            var answer := Size(|cells|, s.writeIdx, t.readIdx);
            && (answer == |Contents(t)| <==> (|t.pushed| - |s.pushed|) % |cells| == 0)
            && (answer == |Contents(s)| <==> (|t.popped| - |s.popped|) % |cells| == 0)
  {
    hide Run, Size, Contents;
    var s, t := Run(cells, before), Run(cells, before + between);
    SizeAnswers(cells, before, between);
    RingIsFifo(cells, before);
    RingIsFifo(cells, before + between);
    CongruentIff(|s.pushed| - |t.popped|, |Contents(t)|, |cells|);
    CongruentIff(|s.pushed| - |t.popped|, |Contents(s)|, |cells|);
  }

  /** In particular when no push, or no pop, is published between the loads. */
  lemma SizeExactWhenStill<T>(cells: seq<T>, before: seq<Action<T>>, between: seq<Action<T>>)
    requires 0 < |cells|
    ensures var s, t := Run(cells, before), Run(cells, before + between);
            var answer := Size(|cells|, s.writeIdx, t.readIdx);
            && ((forall a :: a in between ==> !a.PushStoreIndex?) ==> answer == |Contents(t)|)
            && ((forall a :: a in between ==> !a.PopStoreIndex?) ==> answer == |Contents(s)|)
  {
    hide Run, Size, Contents;
    SizeExactIff(cells, before, between);
    RunGrows(cells, before, between);
    ModIs(0, 0, 0, |cells|);
  }

  lemma {:induction false} RunAppend<T>(cells: seq<T>, actions: seq<Action<T>>, a: Action<T>)
    requires 0 < |cells|
    ensures Run(cells, actions + [a]) == Apply(Run(cells, actions), a)
  {
    hide Apply;
    assert (actions + [a])[..|actions + [a]| - 1] == actions;
  }

  /** One push, action by action, and one pop. */
  function OnePush<T>(v: T): seq<Action<T>> {
    [] + [PushLoadWrite(v)] + [PushLoadRead] + [PushStoreCell] + [PushStoreIndex]
  }

  function ThenOnePop<T>(actions: seq<Action<T>>): seq<Action<T>> {
    actions + [PopLoadRead] + [PopLoadWrite] + [PopReadCell] + [PopStoreIndex]
  }

  lemma PushRuns<T>(cells: seq<T>, v: T)
    requires 1 < |cells|
    ensures var s := Run(cells, OnePush(v)); s.readIdx == 0 && s.writeIdx == 1 && s.consumer.PopIdle?
  {
    hide Run, Contents;
    var a0: seq<Action<T>> := [];
    NextIndex(|cells|, 0);
    RunNothing(cells);
    RunAppend(cells, a0, PushLoadWrite(v));
    RunAppend(cells, a0 + [PushLoadWrite(v)], PushLoadRead);
    RunAppend(cells, a0 + [PushLoadWrite(v)] + [PushLoadRead], PushStoreCell);
    RunAppend(cells, a0 + [PushLoadWrite(v)] + [PushLoadRead] + [PushStoreCell], PushStoreIndex);
  }

  lemma RunNothing<T>(cells: seq<T>)
    requires 0 < |cells|
    ensures Run(cells, []) == Init(cells)
  {
  }

  lemma PopRuns<T>(cells: seq<T>, actions: seq<Action<T>>)
    requires 1 < |cells|
    requires var s := Run(cells, actions); s.readIdx == 0 && s.writeIdx == 1 && s.consumer.PopIdle?
    ensures var t := Run(cells, ThenOnePop(actions)); t.readIdx == 1 && t.writeIdx == 1
  {
    hide Run, Contents;
    NextIndex(|cells|, 0);
    RunAppend(cells, actions, PopLoadRead);
    RunAppend(cells, actions + [PopLoadRead], PopLoadWrite);
    RunAppend(cells, actions + [PopLoadRead] + [PopLoadWrite], PopReadCell);
    RunAppend(cells, actions + [PopLoadRead] + [PopLoadWrite] + [PopReadCell], PopStoreIndex);
  }

  /** It can be as wrong as it gets: an observer that loads write_idx_ of an empty ring, and then
      read_idx_ after one push and one pop, is told that the ring is full. */
  lemma SizeCanBeWrong<T>(cells: seq<T>, v: T)
    requires 1 < |cells|
    ensures var s, t := Run(cells, []), Run(cells, ThenOnePop(OnePush(v)));
            Contents(s) == [] && Contents(t) == [] && Size(|cells|, s.writeIdx, t.readIdx) == |cells| - 1
  {
    hide Apply, OnePush, ThenOnePop, Run;
    RunNothing(cells);
    PushRuns(cells, v);
    PopRuns(cells, OnePush(v));
  }

  // ---------------------------------------------------------------- the class

  /** The ring itself.  Each method before `Push` is one atomic action on the shared fields and
      on the locals of the thread that runs it. */
  class LockFreeRingBuffer<T(0)> {
    const buffer: array<T>
    var writeIdx: nat
    var readIdx: nat
    var producer: Producer<T>
    var consumer: Consumer<T>
    ghost var pushed: seq<T>
    ghost var popped: seq<T>

    ghost function View(): State<T>
      reads this, buffer
    {
      State(buffer[..], writeIdx, readIdx, producer, consumer, pushed, popped)
    }

    ghost predicate Valid()
      reads this, buffer
    {
      Inv(View())
    }

    constructor (capacity: nat)
      requires 0 < capacity
      ensures fresh(buffer) && buffer.Length == capacity
      ensures View() == Init(buffer[..]) && Valid()
    {
      buffer := new T[capacity];
      writeIdx, readIdx := 0, 0;
      producer, consumer := PushIdle, PopIdle;
      pushed, popped := [], [];
    }

    method LoadWriteForPush(value: T)
      requires Valid() && producer.PushIdle?
      modifies this`producer
      ensures Valid() && View() == Apply(old(View()), PushLoadWrite(value)) && producer.PushHasWrite?
      ensures producer.value == value && Contents(View()) == Contents(old(View()))
    {
      producer := PushHasWrite(value, writeIdx);
    }

    method LoadReadForPush() returns (full: bool)
      requires Valid() && producer.PushHasWrite?
      modifies this`producer
      ensures Valid() && View() == Apply(old(View()), PushLoadRead)
      ensures full == (|Contents(old(View()))| == buffer.Length - 1)
      ensures if full then producer.PushIdle?
              else producer.PushMayStore? && producer.value == old(producer.value)
      ensures Contents(View()) == Contents(old(View()))
    {
      ghost var before := View();
      var nextWrite := (producer.write + 1) % buffer.Length;
      full := nextWrite == readIdx;
      producer := if full then PushIdle else PushMayStore(producer.value, producer.write);
      ApplyKeepsInv(before, PushLoadRead);
      FullMeans(before);
    }

    method StoreCell()
      requires Valid() && producer.PushMayStore?
      modifies this`producer, buffer
      ensures Valid() && View() == Apply(old(View()), PushStoreCell)
      ensures producer == PushStored(old(producer.value), old(producer.write))
      ensures Contents(View()) == Contents(old(View()))
    {
      ghost var before := View();
      buffer[producer.write] := producer.value;
      producer := PushStored(producer.value, producer.write);
      ApplyKeepsInv(before, PushStoreCell);
      assert View() == Apply(before, PushStoreCell);
      assert Contents(View()) == Contents(before);
    }

    method StoreWriteIndex()
      requires Valid() && producer.PushStored?
      modifies this`producer, this`writeIdx, this`pushed
      ensures Valid() && View() == Apply(old(View()), PushStoreIndex) && producer.PushIdle?
      ensures Contents(View()) == Contents(old(View())) + [old(producer.value)]
    {
      ghost var before := View();
      writeIdx := (producer.write + 1) % buffer.Length;
      pushed := pushed + [producer.value];
      producer := PushIdle;
      ApplyKeepsInv(before, PushStoreIndex);
      StoreIndexEnqueues(before);
      assert View() == Apply(before, PushStoreIndex);
    }

    method LoadReadForPop()
      requires Valid() && consumer.PopIdle?
      modifies this`consumer
      ensures Valid() && View() == Apply(old(View()), PopLoadRead) && consumer.PopHasRead?
      ensures Contents(View()) == Contents(old(View()))
    {
      consumer := PopHasRead(readIdx);
    }

    method LoadWriteForPop() returns (empty: bool)
      requires Valid() && consumer.PopHasRead?
      modifies this`consumer
      ensures Valid() && View() == Apply(old(View()), PopLoadWrite)
      ensures Contents(View()) == Contents(old(View()))
      ensures empty == (Contents(old(View())) == [])
      ensures if empty then consumer.PopIdle? else consumer.PopMayRead?
    {
      ghost var before := View();
      empty := consumer.read == writeIdx;
      consumer := if empty then PopIdle else PopMayRead(consumer.read);
      ApplyKeepsInv(before, PopLoadWrite);
    }

    method ReadCell()
      requires Valid() && consumer.PopMayRead?
      modifies this`consumer
      ensures Valid() && View() == Apply(old(View()), PopReadCell) && consumer.PopTaken?
      ensures Contents(View()) == Contents(old(View()))
    {
      ghost var before := View();
      consumer := PopTaken(buffer[consumer.read], consumer.read);
      ApplyKeepsInv(before, PopReadCell);
      assert View() == Apply(before, PopReadCell);
    }

    method StoreReadIndex() returns (value: T)
      requires Valid() && consumer.PopTaken?
      modifies this`consumer, this`readIdx, this`popped
      ensures Valid() && View() == Apply(old(View()), PopStoreIndex) && consumer.PopIdle?
      ensures Contents(old(View())) == [value] + Contents(View())
    {
      ghost var before := View();
      value := consumer.value;
      readIdx := (consumer.read + 1) % buffer.Length;
      popped := popped + [consumer.value];
      consumer := PopIdle;
      ApplyKeepsInv(before, PopStoreIndex);
      StoreIndexDequeues(before);
      assert View() == Apply(before, PopStoreIndex);
    }

    /** `push` when no action of the consumer comes between its own. */
    method Push(value: T) returns (ok: bool)
      requires Valid() && producer.PushIdle?
      modifies this`producer, this`writeIdx, this`pushed, buffer
      ensures Valid() && producer.PushIdle?
      ensures ok == (|Contents(old(View()))| < buffer.Length - 1)
      ensures Contents(View()) == if ok then Contents(old(View())) + [value] else Contents(old(View()))
    {
      hide Inv, Apply, Contents;
      LoadWriteForPush(value);
      var full := LoadReadForPush();
      ok := !full;
      if ok {
        StoreCell();
        StoreWriteIndex();
      }
    }

    /** `pop` when no action of the producer comes between its own. */
    method Pop(initial: T) returns (ok: bool, value: T)
      requires Valid() && consumer.PopIdle?
      modifies this`consumer, this`readIdx, this`popped
      ensures Valid() && consumer.PopIdle?
      ensures ok == (Contents(old(View())) != [])
      ensures if ok then [value] + Contents(View()) == Contents(old(View()))
              else value == initial && Contents(View()) == Contents(old(View()))
    {
      hide Inv, Apply, Contents;
      LoadReadForPop();
      var empty := LoadWriteForPop();
      ok, value := !empty, initial;
      if ok {
        ReadCell();
        value := StoreReadIndex();
      }
    }
  }

}
