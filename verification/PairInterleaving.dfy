/** `acquireBuffers` and `releaseBuffers` of memory_pool.h when threads overlap.

    The two pools have a mutex each and the pair has none, so another thread may come between the
    two halves of either operation.  A run is any interleaving of the halves over any number of
    threads; a half whose thread is elsewhere is a no-op.  Allocation itself does not fail. */
module PairInterleaving {

  import opened Common
  import M = MemoryPool

  /** Where a thread is. */
  datatype Phase =
    | Idle
    | HalfAcquired(state: nat)
    | Holding(state: nat, output: nat)
    | HalfReleased(output: nat)
    | Threw(state: nat)   // the second `acquire` threw; nobody will release the state buffer

  datatype World = World(statePool: M.Pool, outputPool: M.Pool, threads: seq<Phase>)

  datatype Half =
    | AcquireState(thread: nat, alloc: nat)
    | AcquireOutput(thread: nat, alloc: nat)
    | ReleaseState(thread: nat)
    | ReleaseOutput(thread: nat)

  function Apply(w: World, h: Half): World {
    var i := h.thread;
    if i >= |w.threads| then w
    else
      var phase := w.threads[i];
      match h
      case AcquireState(_, alloc) =>
        var (p, r) := M.Acquire(w.statePool, Some(alloc));
        if phase.Idle? && M.At(w.statePool.blocks, alloc) == 0 && r.Acquired? then
          w.(statePool := p, threads := w.threads[i := HalfAcquired(r.ptr)])
        else w
      case AcquireOutput(_, alloc) =>
        if !phase.HalfAcquired? || M.At(w.outputPool.blocks, alloc) != 0 then w
        else
          var (p, r) := M.Acquire(w.outputPool, Some(alloc));
          if r.Acquired? then w.(outputPool := p, threads := w.threads[i := Holding(phase.state, r.ptr)])
          else w.(threads := w.threads[i := Threw(phase.state)])
      case ReleaseState(_) =>
        if phase.Holding? then
          w.(statePool := M.Release(w.statePool, phase.state), threads := w.threads[i := HalfReleased(phase.output)])
        else w
      case ReleaseOutput(_) =>
        if phase.HalfReleased? then
          w.(outputPool := M.Release(w.outputPool, phase.output), threads := w.threads[i := Idle])
        else w
  }

  function Init(maxBuffers: nat, threads: nat): World {
    World(M.Init(maxBuffers), M.Init(maxBuffers), seq(threads, _ => Idle))
  }

  function Run(maxBuffers: nat, threads: nat, halves: seq<Half>): World
    decreases |halves|
  {
    if halves == [] then Init(maxBuffers, threads)
    else Apply(Run(maxBuffers, threads, halves[..|halves| - 1]), halves[|halves| - 1])
  }

  // ---------------------------------------------------------------- who holds what

  datatype Side = State | Output

  /** The buffer of one pool that a thread has taken and not given back. */
  function Taken(phase: Phase, side: Side): Option<nat> {
    match phase
    case Idle => None
    case HalfAcquired(s) => if side.State? then Some(s) else None
    case Holding(s, o) => Some(if side.State? then s else o)
    case HalfReleased(o) => if side.State? then None else Some(o)
    case Threw(s) => if side.State? then Some(s) else None
  }

  function Takers(threads: seq<Phase>, side: Side): nat {
    if threads == [] then 0
    else Takers(threads[..|threads| - 1], side) + One(Taken(threads[|threads| - 1], side).Some?)
  }

  function TakersOf(threads: seq<Phase>, side: Side, x: nat): nat {
    if threads == [] then 0
    else TakersOf(threads[..|threads| - 1], side, x) + One(Taken(threads[|threads| - 1], side) == Some(x))
  }

  lemma {:induction false} PhaseUpdate(threads: seq<Phase>, i: nat, phase: Phase, side: Side, x: nat)
    requires i < |threads|
    ensures Takers(threads[i := phase], side) + One(Taken(threads[i], side).Some?)
         == Takers(threads, side) + One(Taken(phase, side).Some?)
    ensures TakersOf(threads[i := phase], side, x) + One(Taken(threads[i], side) == Some(x))
         == TakersOf(threads, side, x) + One(Taken(phase, side) == Some(x))
  {
    hide Taken;
    var last := |threads| - 1;
    if i == last {
      assert threads[i := phase][..last] == threads[..last];
    } else {
      PhaseUpdate(threads[..last], i, phase, side, x);
      assert threads[i := phase][..last] == threads[..last][i := phase];
    }
  }

  lemma {:induction false} TakerCounts(threads: seq<Phase>, i: nat, side: Side, x: nat)
    requires i < |threads| && Taken(threads[i], side) == Some(x)
    ensures TakersOf(threads, side, x) >= 1
  {
    if i < |threads| - 1 { TakerCounts(threads[..|threads| - 1], i, side, x); }
  }

  // ---------------------------------------------------------------- the invariant

  /** One pool: sound, and the buffers in use are exactly those taken. */
  ghost predicate SideInv(pool: M.Pool, threads: seq<Phase>, side: Side) {
    && M.Sound(pool)
    && M.Used(pool.blocks) == Takers(threads, side)
    && forall x :: TakersOf(threads, side, x) == M.InUseAt(pool.blocks, x)
  }

  ghost predicate Inv(w: World, maxBuffers: nat) {
    && SideInv(w.statePool, w.threads, State) && SideInv(w.outputPool, w.threads, Output)
    && w.statePool.maxBlocks == w.outputPool.maxBlocks == maxBuffers
  }

  /** A pool is unaffected by a thread whose share of it does not change. */
  lemma SideStays(pool: M.Pool, threads: seq<Phase>, i: nat, phase: Phase, side: Side)
    requires SideInv(pool, threads, side) && i < |threads| && Taken(phase, side) == Taken(threads[i], side)
    ensures SideInv(pool, threads[i := phase], side)
  {
    hide M.Sound, Takers, TakersOf, Taken;
    PhaseUpdate(threads, i, phase, side, 0);
    forall x ensures TakersOf(threads[i := phase], side, x) == TakersOf(threads, side, x) {
      PhaseUpdate(threads, i, phase, side, x);
    }
  }

  lemma SideTakes(pool: M.Pool, threads: seq<Phase>, i: nat, phase: Phase, side: Side, alloc: nat)
    requires SideInv(pool, threads, side) && M.At(pool.blocks, alloc) == 0 && M.Acquire(pool, Some(alloc)).1.Acquired?
    requires i < |threads| && Taken(threads[i], side).None?
    requires Taken(phase, side) == Some(M.Acquire(pool, Some(alloc)).1.ptr)
    ensures SideInv(M.Acquire(pool, Some(alloc)).0, threads[i := phase], side)
    ensures M.Acquire(pool, Some(alloc)).0.maxBlocks == pool.maxBlocks
  {
    hide M.Acquire, M.Sound, Takers, TakersOf, Taken;
    var (q, r) := M.Acquire(pool, Some(alloc));
    M.AcquireEffect(pool, Some(alloc));
    PhaseUpdate(threads, i, phase, side, 0);
    forall x ensures TakersOf(threads[i := phase], side, x) == M.InUseAt(q.blocks, x) {
      PhaseUpdate(threads, i, phase, side, x);
    }
  }

  lemma SideGives(pool: M.Pool, threads: seq<Phase>, i: nat, phase: Phase, side: Side, ptr: nat)
    requires SideInv(pool, threads, side) && i < |threads|
    requires Taken(threads[i], side) == Some(ptr) && Taken(phase, side).None?
    ensures SideInv(M.Release(pool, ptr), threads[i := phase], side)
    ensures M.Release(pool, ptr).maxBlocks == pool.maxBlocks
  {
    hide M.Release, M.Sound, Takers, TakersOf, Taken;
    TakerCounts(threads, i, side, ptr);
    M.ReleaseEffect(pool, ptr);
    PhaseUpdate(threads, i, phase, side, 0);
    forall x ensures TakersOf(threads[i := phase], side, x) == M.InUseAt(M.Release(pool, ptr).blocks, x) {
      PhaseUpdate(threads, i, phase, side, x);
    }
  }

  lemma ApplyKeepsInv(w: World, maxBuffers: nat, h: Half)
    requires Inv(w, maxBuffers)
    ensures Inv(Apply(w, h), maxBuffers)
  {
    hide M.Acquire, M.Release, M.At, SideInv;
    var t, i := Apply(w, h), h.thread;
    if t != w {
      var phase := t.threads[i];
      match h
      case AcquireState(_, alloc) =>
        SideTakes(w.statePool, w.threads, i, phase, State, alloc);
        SideStays(w.outputPool, w.threads, i, phase, Output);
      case AcquireOutput(_, alloc) =>
        SideStays(w.statePool, w.threads, i, phase, State);
        if phase.Holding? {
          SideTakes(w.outputPool, w.threads, i, phase, Output, alloc);
        } else {
          SideStays(w.outputPool, w.threads, i, phase, Output);
        }
      case ReleaseState(_) =>
        SideGives(w.statePool, w.threads, i, phase, State, w.threads[i].state);
        SideStays(w.outputPool, w.threads, i, phase, Output);
      case ReleaseOutput(_) =>
        SideStays(w.statePool, w.threads, i, phase, State);
        SideGives(w.outputPool, w.threads, i, phase, Output, w.threads[i].output);
    }
  }

  lemma {:induction false} RunKeepsInv(maxBuffers: nat, threads: nat, halves: seq<Half>)
    requires maxBuffers < TWO_64
    ensures Inv(Run(maxBuffers, threads, halves), maxBuffers) && |Run(maxBuffers, threads, halves).threads| == threads
    decreases |halves|
  {
    hide Inv, Apply;
    if halves == [] {
      InitInv(maxBuffers, threads);
    } else {
      var w, h := Run(maxBuffers, threads, halves[..|halves| - 1]), halves[|halves| - 1];
      RunKeepsInv(maxBuffers, threads, halves[..|halves| - 1]);
      ApplyKeepsInv(w, maxBuffers, h);
      ApplyKeepsThreads(w, h);
    }
  }

  lemma ApplyKeepsThreads(w: World, h: Half)
    ensures |Apply(w, h).threads| == |w.threads|
  {
    hide M.Acquire, M.Release, M.At;
  }

  lemma InitInv(maxBuffers: nat, threads: nat)
    requires maxBuffers < TWO_64
    ensures Inv(Init(maxBuffers, threads), maxBuffers)
  {
    forall side, x { AllIdle(Init(maxBuffers, threads).threads, side, x); }
    AllIdle(Init(maxBuffers, threads).threads, State, 0);
    AllIdle(Init(maxBuffers, threads).threads, Output, 0);
  }

  lemma {:induction false} AllIdle(threads: seq<Phase>, side: Side, x: nat)
    requires forall i :: 0 <= i < |threads| ==> threads[i].Idle?
    ensures Takers(threads, side) == 0 && TakersOf(threads, side, x) == 0
  {
    if threads != [] { AllIdle(threads[..|threads| - 1], side, x); }
  }

  // ---------------------------------------------------------------- the results

  function Releasing(threads: seq<Phase>): nat {
    if threads == [] then 0
    else Releasing(threads[..|threads| - 1]) + One(threads[|threads| - 1].HalfReleased?)
  }

  /** Threads that have a state buffer without an output buffer. */
  function Lacking(threads: seq<Phase>): nat {
    if threads == [] then 0
    else Lacking(threads[..|threads| - 1]) + One(threads[|threads| - 1].HalfAcquired? || threads[|threads| - 1].Threw?)
  }

  lemma {:induction false} SidesDiffer(threads: seq<Phase>)
    ensures Takers(threads, State) + Releasing(threads) == Takers(threads, Output) + Lacking(threads)
  {
    if threads != [] { SidesDiffer(threads[..|threads| - 1]); }
  }

  lemma {:induction false} LackingCounts(threads: seq<Phase>, i: nat)
    requires i < |threads| && threads[i].HalfAcquired?
    ensures Lacking(threads) >= 1
  {
    if i < |threads| - 1 { LackingCounts(threads[..|threads| - 1], i); }
  }

  /** In every interleaving the pools differ by the operations that are between their halves, or
      have thrown there. */
  lemma PoolsDifferByHalves(maxBuffers: nat, threads: nat, halves: seq<Half>)
    requires maxBuffers < TWO_64
    ensures var w := Run(maxBuffers, threads, halves);
            M.Used(w.statePool.blocks) + Releasing(w.threads) == M.Used(w.outputPool.blocks) + Lacking(w.threads)
  {
    hide Run, M.Sound;
    RunKeepsInv(maxBuffers, threads, halves);
    SidesDiffer(Run(maxBuffers, threads, halves).threads);
  }

  /** The second `acquire` throws exactly when every output buffer is taken; and since the first
      has succeeded, that takes at least as many releases between their halves as there are
      threads with a state buffer alone.  With no release under way it cannot throw. */
  lemma OutputFailsIff(maxBuffers: nat, threads: nat, halves: seq<Half>, i: nat, alloc: nat)
    requires maxBuffers < TWO_64 && i < threads
    requires var w := Run(maxBuffers, threads, halves);
             && i < |w.threads| && w.threads[i].HalfAcquired? && M.At(w.outputPool.blocks, alloc) == 0
    ensures var w := Run(maxBuffers, threads, halves);
            var fails := !M.Acquire(w.outputPool, Some(alloc)).1.Acquired?;
            && (fails <==> Takers(w.threads, Output) == maxBuffers)
            && (fails ==> Releasing(w.threads) >= Lacking(w.threads) >= 1)
  {
    hide Run, M.Acquire, Takers, TakersOf, M.Used, M.At, M.InUseAt, Releasing, Lacking;
    RunKeepsInv(maxBuffers, threads, halves);
    var w := Run(maxBuffers, threads, halves);
    M.AcquireEffect(w.outputPool, Some(alloc));
    M.UsedBounds(w.statePool.blocks);
    M.UsedBounds(w.outputPool.blocks);
    SidesDiffer(w.threads);
    LackingCounts(w.threads, i);
  }

  lemma RunAppend(maxBuffers: nat, threads: nat, halves: seq<Half>, h: Half)
    ensures Run(maxBuffers, threads, halves + [h]) == Apply(Run(maxBuffers, threads, halves), h)
  {
    assert (halves + [h])[..|halves|] == halves;
  }

  /** Only thread `i` has moved. */
  predicate OnlyThread(w: World, t: World, i: nat) {
    |t.threads| == |w.threads| && forall j :: 0 <= j < |w.threads| && j != i ==> t.threads[j] == w.threads[j]
  }

  /** How a thread gets on: it gets a state buffer unless all are taken, then an output buffer unless all
      are taken, or throws; it gives back first the one and then the other, and has neither.  No half
      moves another thread, and none moves a thread it is not the turn of. */
  lemma HalvesMove(maxBuffers: nat, threads: nat, halves: seq<Half>, i: nat, alloc: nat)
    requires maxBuffers < TWO_64 && i < threads == |Run(maxBuffers, threads, halves).threads|
    ensures var w, t := Run(maxBuffers, threads, halves), Run(maxBuffers, threads, halves + [AcquireState(i, alloc)]);
            && OnlyThread(w, t, i) && t.outputPool == w.outputPool
            && (M.At(w.statePool.blocks, alloc) == 0 && w.threads[i].Idle? && Takers(w.threads, State) < maxBuffers ==>
                  t.threads[i].HalfAcquired?)
            && (!w.threads[i].Idle? || Takers(w.threads, State) == maxBuffers ==> t == w)
    ensures var w, t := Run(maxBuffers, threads, halves), Run(maxBuffers, threads, halves + [AcquireOutput(i, alloc)]);
            && OnlyThread(w, t, i) && t.statePool == w.statePool
            && (M.At(w.outputPool.blocks, alloc) == 0 && w.threads[i].HalfAcquired? ==>
                  if Takers(w.threads, Output) < maxBuffers then
                    t.threads[i].Holding? && t.threads[i].state == w.threads[i].state
                  else t == w.(threads := w.threads[i := Threw(w.threads[i].state)]))
            && (!w.threads[i].HalfAcquired? ==> t == w)
    ensures var w, t := Run(maxBuffers, threads, halves), Run(maxBuffers, threads, halves + [ReleaseState(i)]);
            && OnlyThread(w, t, i) && t.outputPool == w.outputPool
            && (if w.threads[i].Holding? then t.threads[i] == HalfReleased(w.threads[i].output) else t == w)
    ensures var w, t := Run(maxBuffers, threads, halves), Run(maxBuffers, threads, halves + [ReleaseOutput(i)]);
            && OnlyThread(w, t, i) && t.statePool == w.statePool
            && (if w.threads[i].HalfReleased? then t.threads[i].Idle? else t == w)
  {
    hide Run, M.Acquire, M.Release, M.At, M.Used, M.InUseAt, Takers, TakersOf;
    RunKeepsInv(maxBuffers, threads, halves);
    var w := Run(maxBuffers, threads, halves);
    RunAppend(maxBuffers, threads, halves, AcquireState(i, alloc));
    RunAppend(maxBuffers, threads, halves, AcquireOutput(i, alloc));
    RunAppend(maxBuffers, threads, halves, ReleaseState(i));
    RunAppend(maxBuffers, threads, halves, ReleaseOutput(i));
    M.UsedBounds(w.statePool.blocks);
    M.UsedBounds(w.outputPool.blocks);
    if M.At(w.statePool.blocks, alloc) == 0 { M.AcquireEffect(w.statePool, Some(alloc)); }
    if M.At(w.outputPool.blocks, alloc) == 0 { M.AcquireEffect(w.outputPool, Some(alloc)); }
  }

  /** It does happen: with one buffer each, a thread that acquires between the two halves of
      another's release gets the state buffer and no output buffer. */
  lemma OverlapCanThrow() returns (halves: seq<Half>)
    ensures Run(1, 2, halves).threads == [HalfReleased(1), Threw(1)]
    ensures M.Used(Run(1, 2, halves).statePool.blocks) == 1
  {
    hide M.Acquire, M.Release, M.At, M.Used, M.Init, Run;
    OneBuffer();
    var a0, a1, r0 := AcquireState(0, 1), AcquireOutput(0, 1), ReleaseState(0);
    var b0, b1 := AcquireState(1, 2), AcquireOutput(1, 2);
    RunStep([], a0);
    RunStep([] + [a0], a1);
    RunStep([] + [a0] + [a1], r0);
    RunStep([] + [a0] + [a1] + [r0], b0);
    RunStep([] + [a0] + [a1] + [r0] + [b0], b1);
    halves := [] + [a0] + [a1] + [r0] + [b0] + [b1];
  }

  lemma RunStep(halves: seq<Half>, h: Half)
    ensures Run(1, 2, []) == World(M.Init(1), M.Init(1), [Idle, Idle])
    ensures Run(1, 2, halves + [h]) == Apply(Run(1, 2, halves), h)
  {
    hide Apply, M.Init;
    assert (halves + [h])[..|halves|] == halves;
  }

  lemma OneBuffer()
    ensures var free, taken := M.Pool([M.Block(1, false)], 1, 0), M.Pool([M.Block(1, true)], 1, 1);
            && M.At(M.Init(1).blocks, 1) == 0 && M.Acquire(M.Init(1), Some(1)) == (taken, M.Acquired(1))
            && M.Release(taken, 1) == free
            && M.At(free.blocks, 2) == 0 && M.Acquire(free, Some(2)) == (taken, M.Acquired(1))
            && M.At(taken.blocks, 2) == 0 && M.Acquire(taken, Some(2)) == (taken, M.Exhausted)
            && M.Used(taken.blocks) == 1
  {
    assert [M.Block(1, false)][..0] == [] && [M.Block(1, true)][..0] == [];
    assert [M.Block(1, true)][1..] == [];
    assert [M.Block(1, true)][0 := M.Block(1, false)] == [M.Block(1, false)];
    assert [M.Block(1, false)][0 := M.Block(1, true)] == [M.Block(1, true)];
    assert [] + [M.Block(1, true)] == [M.Block(1, true)];
  }

  /** A thread that threw keeps its state buffer taken for good, whatever anyone does next. */
  lemma {:induction false} ThrownIsLost(maxBuffers: nat, threads: nat, halves: seq<Half>, more: seq<Half>, i: nat)
    requires maxBuffers < TWO_64 && i < threads
    requires var w := Run(maxBuffers, threads, halves); i < |w.threads| && w.threads[i].Threw?
    ensures var w, t := Run(maxBuffers, threads, halves), Run(maxBuffers, threads, halves + more);
            && i < |t.threads| && t.threads[i] == w.threads[i]
            && M.InUseAt(t.statePool.blocks, w.threads[i].state) >= 1
    decreases |more|
  {
    hide Apply, TakersOf, M.InUseAt;
    if more == [] {
      assert halves + more == halves;
    } else {
      var before := more[..|more| - 1];
      assert (halves + more)[..|halves + more| - 1] == halves + before;
      ThrownIsLost(maxBuffers, threads, halves, before, i);
      ThrewStays(Run(maxBuffers, threads, halves + before), more[|more| - 1], i);
    }
    ThrewHolds(maxBuffers, threads, halves + more, i);
  }

  lemma ThrewHolds(maxBuffers: nat, threads: nat, halves: seq<Half>, i: nat)
    requires maxBuffers < TWO_64
    requires var w := Run(maxBuffers, threads, halves); i < |w.threads| && w.threads[i].Threw?
    ensures var w := Run(maxBuffers, threads, halves); M.InUseAt(w.statePool.blocks, w.threads[i].state) >= 1
  {
    hide Run, Takers, TakersOf, M.Sound, M.InUseAt, M.Used;
    RunKeepsInv(maxBuffers, threads, halves);
    var w := Run(maxBuffers, threads, halves);
    TakerCounts(w.threads, i, State, w.threads[i].state);
  }

  lemma ThrewStays(w: World, h: Half, i: nat)
    requires i < |w.threads| && w.threads[i].Threw?
    ensures i < |Apply(w, h).threads| && Apply(w, h).threads[i] == w.threads[i]
  {
    hide M.Acquire, M.Release, M.At;
  }
}
