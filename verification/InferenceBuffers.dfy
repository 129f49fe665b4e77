/** `InferenceBufferPool` and `ScopedInferenceBuffer` of memory_pool.h: buffers taken and given back
    in pairs, by move-only owners.

    A world is any number of pair pools and every owner ever constructed.  Operations on pairs are
    taken one at a time here; PairInterleaving lets them overlap.  Each constructed pair is
    a lease, numbered in order, so that releases can be counted. */
module InferenceBuffers {

  import opened Common
  import M = MemoryPool

  datatype PairPool = PairPool(state: M.Pool, output: M.Pool)

  /** A `ScopedInferenceBuffer`: destroyed, without a pool, or owning a pair.  `Lost` is none: it
      stands for a construction that threw between its two acquisitions and left a state buffer
      taken. */
  datatype Handle =
    | Dead
    | Moved
    | Owning(pool: nat, lease: nat, state: nat, output: nat)
    | Lost(pool: nat, state: nat)

  datatype World = World(pools: seq<PairPool>, handles: seq<Handle>, leases: nat, released: seq<nat>)

  // ---------------------------------------------------------------- the operations

  /** `acquireBuffers`: when the second `acquire` throws, the first buffer stays taken. */
  function AcquirePair(pp: PairPool, stateAlloc: Option<nat>, outputAlloc: Option<nat>)
    : (PairPool, Option<(nat, nat)>)
  {
    var (s, rs) := M.Acquire(pp.state, stateAlloc);
    if !rs.Acquired? then (pp, None)
    else
      var (o, ro) := M.Acquire(pp.output, outputAlloc);
      if !ro.Acquired? then (PairPool(s, pp.output), None) else (PairPool(s, o), Some((rs.ptr, ro.ptr)))
  }

  function ReleasePair(pp: PairPool, state: nat, output: nat): PairPool {
    PairPool(M.Release(pp.state, state), M.Release(pp.output, output))
  }

  datatype Op =
    // what allocating a new block would give, should one be needed
    | Construct(pool: nat, stateAlloc: Option<nat>, outputAlloc: Option<nat>)
    | MoveConstruct(source: nat)
    | MoveAssign(target: nat, source: nat)
    | Destroy(handle: nat)

  predicate Live(w: World, i: nat) { i < |w.handles| && (w.handles[i].Moved? || w.handles[i].Owning?) }

  /** An allocation fails or gives an address no block of the pool has. */
  predicate Fresh(pool: M.Pool, alloc: Option<nat>) { alloc.Some? ==> M.At(pool.blocks, alloc.value) == 0 }

  /** An allocation fails or gives an address no block of any pool has. */
  predicate Unclaimed(pools: seq<PairPool>, alloc: Option<nat>) {
    forall p :: 0 <= p < |pools| ==> Fresh(pools[p].state, alloc) && Fresh(pools[p].output, alloc)
  }

  /** What one allocator gives for the two blocks of a pair. */
  predicate Allocated(pools: seq<PairPool>, stateAlloc: Option<nat>, outputAlloc: Option<nat>) {
    && Unclaimed(pools, stateAlloc) && Unclaimed(pools, outputAlloc)
    && (stateAlloc.Some? ==> stateAlloc != outputAlloc)
  }

  /** The first `acquire` of the pair succeeds and the second does not. */
  predicate Leaks(pp: PairPool, stateAlloc: Option<nat>, outputAlloc: Option<nat>) {
    M.Acquire(pp.state, stateAlloc).1.Acquired? && !M.Acquire(pp.output, outputAlloc).1.Acquired?
  }

  /** The owner gives its pair back, if it has one. */
  function LetGo(w: World, i: nat): World
    requires i < |w.handles|
  {
    var h := w.handles[i];
    if h.Owning? && h.pool < |w.pools| then
      World(w.pools[h.pool := ReleasePair(w.pools[h.pool], h.state, h.output)], w.handles[i := Moved], w.leases,
            w.released + [h.lease])
    else w
  }

  /** An operation on dead or missing owners or pools is no operation, nor is a construction with
      addresses that are taken.  When the first `acquire` throws nothing has happened. */
  function Apply(w: World, op: Op): World {
    match op
    case Construct(p, sa, oa) =>
      if p < |w.pools| && Allocated(w.pools, sa, oa) then
        var (pp, r) := AcquirePair(w.pools[p], sa, oa);
        if r.Some? then
          var h := Owning(p, w.leases, r.value.0, r.value.1);
          World(w.pools[p := pp], w.handles + [h], w.leases + 1, w.released)
        else if Leaks(w.pools[p], sa, oa) then
          var h := Lost(p, M.Acquire(w.pools[p].state, sa).1.ptr);
          w.(pools := w.pools[p := pp], handles := w.handles + [h])
        else w
      else w
    case MoveConstruct(i) =>
      if Live(w, i) then w.(handles := w.handles[i := Moved] + [w.handles[i]]) else w
    case MoveAssign(t, s) =>
      if Live(w, t) && Live(w, s) && t != s then
        var v := LetGo(w, t);
        v.(handles := v.handles[t := v.handles[s]][s := Moved])
      else w
    case Destroy(i) =>
      if Live(w, i) then
        var v := LetGo(w, i);
        v.(handles := v.handles[i := Dead])
      else w
  }

  function Init(sizes: seq<nat>): World {
    World(seq(|sizes|, i requires 0 <= i < |sizes| => PairPool(M.Init(sizes[i]), M.Init(sizes[i]))), [], 0, [])
  }

  function Run(sizes: seq<nat>, ops: seq<Op>): World
    decreases |ops|
  {
    if ops == [] then Init(sizes) else Apply(Run(sizes, ops[..|ops| - 1]), ops[|ops| - 1])
  }

  // ---------------------------------------------------------------- counting owners

  /** Which pool of a pair. */
  datatype Side = State | Output

  predicate Owns(h: Handle, p: nat) { h.Owning? && h.pool == p }

  /** Has a buffer of this pool, whether or not anyone can give it back. */
  predicate Takes(h: Handle, p: nat, side: Side) { Owns(h, p) || (side.State? && h.Lost? && h.pool == p) }

  predicate HasPtr(h: Handle, p: nat, side: Side, x: nat) {
    Takes(h, p, side) && (if side.State? then h.state else h.output) == x
  }

  predicate HasLease(h: Handle, k: nat) { h.Owning? && h.lease == k }

  function Owners(hs: seq<Handle>, p: nat): nat {
    if hs == [] then 0 else Owners(hs[..|hs| - 1], p) + One(Owns(hs[|hs| - 1], p))
  }

  /** State buffers left behind. */
  function Losses(hs: seq<Handle>, p: nat): nat {
    if hs == [] then 0 else Losses(hs[..|hs| - 1], p) + One(hs[|hs| - 1].Lost? && hs[|hs| - 1].pool == p)
  }

  function Takers(hs: seq<Handle>, p: nat, side: Side): nat {
    if hs == [] then 0 else Takers(hs[..|hs| - 1], p, side) + One(Takes(hs[|hs| - 1], p, side))
  }

  lemma {:induction false} TakersAre(hs: seq<Handle>, p: nat)
    ensures Takers(hs, p, State) == Owners(hs, p) + Losses(hs, p)
    ensures Takers(hs, p, Output) == Owners(hs, p)
  {
    if hs != [] { TakersAre(hs[..|hs| - 1], p); }
  }

  function Holders(hs: seq<Handle>, p: nat, side: Side, x: nat): nat {
    if hs == [] then 0 else Holders(hs[..|hs| - 1], p, side, x) + One(HasPtr(hs[|hs| - 1], p, side, x))
  }

  function Leased(hs: seq<Handle>, k: nat): nat {
    if hs == [] then 0 else Leased(hs[..|hs| - 1], k) + One(HasLease(hs[|hs| - 1], k))
  }

  lemma HandleAppend(hs: seq<Handle>, h: Handle, p: nat, side: Side, x: nat)
    ensures Takers(hs + [h], p, side) == Takers(hs, p, side) + One(Takes(h, p, side))
    ensures Holders(hs + [h], p, side, x) == Holders(hs, p, side, x) + One(HasPtr(h, p, side, x))
    ensures Leased(hs + [h], x) == Leased(hs, x) + One(HasLease(h, x))
  {
    assert (hs + [h])[..|hs|] == hs;
  }

  lemma {:induction false} HandleUpdate(hs: seq<Handle>, i: nat, h: Handle, p: nat, side: Side, x: nat)
    requires i < |hs|
    ensures Takers(hs[i := h], p, side) + One(Takes(hs[i], p, side)) == Takers(hs, p, side) + One(Takes(h, p, side))
    ensures Holders(hs[i := h], p, side, x) + One(HasPtr(hs[i], p, side, x))
         == Holders(hs, p, side, x) + One(HasPtr(h, p, side, x))
    ensures Leased(hs[i := h], x) + One(HasLease(hs[i], x)) == Leased(hs, x) + One(HasLease(h, x))
  {
    hide Takes, HasPtr, HasLease;
    var last := |hs| - 1;
    if i == last {
      assert hs[i := h][..last] == hs[..last];
    } else {
      HandleUpdate(hs[..last], i, h, p, side, x);
      assert hs[i := h][..last] == hs[..last][i := h];
    }
  }

  lemma {:induction false} HolderCounts(hs: seq<Handle>, i: nat, p: nat, side: Side, x: nat)
    requires i < |hs| && HasPtr(hs[i], p, side, x)
    ensures Holders(hs, p, side, x) >= 1
  {
    if i < |hs| - 1 { HolderCounts(hs[..|hs| - 1], i, p, side, x); }
  }

  lemma {:induction false} TwoHolders(hs: seq<Handle>, i: nat, j: nat, p: nat, side: Side, x: nat)
    requires i < j < |hs| && HasPtr(hs[i], p, side, x) && HasPtr(hs[j], p, side, x)
    ensures Holders(hs, p, side, x) >= 2
  {
    if j < |hs| - 1 {
      TwoHolders(hs[..|hs| - 1], i, j, p, side, x);
    } else {
      HolderCounts(hs[..|hs| - 1], i, p, side, x);
    }
  }

  // ---------------------------------------------------------------- the invariant

  /** One pool of a pair: sound, and its buffers in use are exactly those taken. */
  ghost predicate SideInv(pool: M.Pool, hs: seq<Handle>, p: nat, side: Side) {
    && M.Sound(pool)
    && M.Used(pool.blocks) == Takers(hs, p, side)
    && forall x :: Holders(hs, p, side, x) == M.InUseAt(pool.blocks, x)
  }

  ghost predicate PairInv(pp: PairPool, hs: seq<Handle>, p: nat) {
    SideInv(pp.state, hs, p, State) && SideInv(pp.output, hs, p, Output) && pp.state.maxBlocks == pp.output.maxBlocks
  }

  /** Every buffer taken is of one of the pools. */
  ghost predicate Placed(hs: seq<Handle>, pools: nat) {
    forall i :: 0 <= i < |hs| && (hs[i].Owning? || hs[i].Lost?) ==> hs[i].pool < pools
  }

  ghost predicate Inv(w: World) {
    && (forall p :: 0 <= p < |w.pools| ==> PairInv(w.pools[p], w.handles, p))
    && Placed(w.handles, |w.pools|)
  }

  /** Owners that hold the same as others, seen at one pool, side and number. */
  predicate SameAt(hs: seq<Handle>, gs: seq<Handle>, p: nat, side: Side, x: nat) {
    && Takers(hs, p, side) == Takers(gs, p, side)
    && Holders(hs, p, side, x) == Holders(gs, p, side, x)
    && Leased(hs, x) == Leased(gs, x)
  }

  ghost predicate SameHoldings(hs: seq<Handle>, gs: seq<Handle>) {
    forall p, side, x :: SameAt(hs, gs, p, side, x)
  }

  lemma SameHoldingsKeepPair(pp: PairPool, hs: seq<Handle>, gs: seq<Handle>, p: nat)
    requires PairInv(pp, hs, p) && SameHoldings(hs, gs)
    ensures PairInv(pp, gs, p)
  {
    hide Takers, Holders, Leased, M.Sound;
    assert SameAt(hs, gs, p, State, 0) && SameAt(hs, gs, p, Output, 0);
    forall side, x ensures Holders(hs, p, side, x) == Holders(gs, p, side, x) {
      assert SameAt(hs, gs, p, side, x);
    }
  }

  lemma MoveHoldsSame(hs: seq<Handle>, i: nat)
    requires i < |hs|
    ensures SameHoldings(hs, hs[i := Moved] + [hs[i]])
  {
    hide Takers, Holders, Leased;
    var gs := hs[i := Moved] + [hs[i]];
    forall p, side, x ensures SameAt(hs, gs, p, side, x) {
      HandleUpdate(hs, i, Moved, p, side, x);
      HandleAppend(hs[i := Moved], hs[i], p, side, x);
    }
  }

  lemma AssignHoldsSame(hs: seq<Handle>, t: nat, s: nat)
    requires t < |hs| && s < |hs| && t != s && hs[t].Moved?
    ensures SameHoldings(hs, hs[t := hs[s]][s := Moved])
  {
    hide Takers, Holders, Leased;
    var gs := hs[t := hs[s]][s := Moved];
    forall p, side, x ensures SameAt(hs, gs, p, side, x) {
      HandleUpdate(hs, t, hs[s], p, side, x);
      HandleUpdate(hs[t := hs[s]], s, Moved, p, side, x);
    }
  }

  lemma DestroyHoldsSame(hs: seq<Handle>, i: nat)
    requires i < |hs| && hs[i].Moved?
    ensures SameHoldings(hs, hs[i := Dead])
  {
    hide Takers, Holders, Leased;
    var gs := hs[i := Dead];
    forall p, side, x ensures SameAt(hs, gs, p, side, x) {
      HandleUpdate(hs, i, Dead, p, side, x);
    }
  }

  lemma SameHoldingsKeepInv(w: World, gs: seq<Handle>)
    requires Inv(w) && SameHoldings(w.handles, gs)
    requires Placed(gs, |w.pools|)
    ensures Inv(w.(handles := gs))
  {
    hide PairInv, SameHoldings;
    forall p | 0 <= p < |w.pools| ensures PairInv(w.pools[p], gs, p) {
      SameHoldingsKeepPair(w.pools[p], w.handles, gs, p);
    }
  }

  // ---------------------------------------------------------------- taking and giving back

  /** One pool's side of a successful acquisition. */
  lemma SideTakes(pool: M.Pool, hs: seq<Handle>, p: nat, side: Side, alloc: Option<nat>, h: Handle)
    requires SideInv(pool, hs, p, side) && Fresh(pool, alloc) && M.Acquire(pool, alloc).1.Acquired?
    requires HasPtr(h, p, side, M.Acquire(pool, alloc).1.ptr)
    ensures SideInv(M.Acquire(pool, alloc).0, hs + [h], p, side)
  {
    hide M.Acquire, M.Sound, Takers, Holders, Leased;
    M.AcquireEffect(pool, alloc);
    HandleAppend(hs, h, p, side, 0);
    forall x ensures Holders(hs + [h], p, side, x) == M.InUseAt(M.Acquire(pool, alloc).0.blocks, x) {
      HandleAppend(hs, h, p, side, x);
    }
  }

  /** A pool is not touched by a handle that takes nothing of it. */
  lemma SideStays(pool: M.Pool, hs: seq<Handle>, p: nat, side: Side, i: nat, h: Handle)
    requires SideInv(pool, hs, p, side) && !Takes(h, p, side)
    ensures SideInv(pool, hs + [h], p, side)
    ensures i < |hs| && !Takes(hs[i], p, side) ==> SideInv(pool, hs[i := h], p, side)
  {
    hide M.Sound, Takers, Holders, Leased;
    HandleAppend(hs, h, p, side, 0);
    forall x ensures Holders(hs + [h], p, side, x) == Holders(hs, p, side, x) {
      HandleAppend(hs, h, p, side, x);
    }
    if i < |hs| && !Takes(hs[i], p, side) {
      HandleUpdate(hs, i, h, p, side, 0);
      forall x ensures Holders(hs[i := h], p, side, x) == Holders(hs, p, side, x) {
        HandleUpdate(hs, i, h, p, side, x);
      }
    }
  }

  /** One pool's side of an owner that lets go. */
  lemma SideGives(pool: M.Pool, hs: seq<Handle>, p: nat, side: Side, i: nat, x: nat)
    requires SideInv(pool, hs, p, side) && i < |hs| && HasPtr(hs[i], p, side, x)
    ensures SideInv(M.Release(pool, x), hs[i := Moved], p, side) && M.Release(pool, x).maxBlocks == pool.maxBlocks
  {
    hide M.Release, M.Sound, Takers, Holders, Leased;
    HolderCounts(hs, i, p, side, x);
    M.ReleaseEffect(pool, x);
    HandleUpdate(hs, i, Moved, p, side, x);
    forall y ensures Holders(hs[i := Moved], p, side, y) == M.InUseAt(M.Release(pool, x).blocks, y) {
      HandleUpdate(hs, i, Moved, p, side, y);
    }
  }

  /** Nor is a pair by a handle of another pool. */
  lemma OthersKeep(pp: PairPool, hs: seq<Handle>, p: nat, i: nat, h: Handle)
    requires PairInv(pp, hs, p) && !Takes(h, p, State)
    ensures PairInv(pp, hs + [h], p)
    ensures i < |hs| && !Takes(hs[i], p, State) ==> PairInv(pp, hs[i := h], p)
  {
    hide SideInv;
    SideStays(pp.state, hs, p, State, i, h);
    SideStays(pp.output, hs, p, Output, i, h);
  }

  /** A state buffer can be had. */
  predicate StateToBeHad(pp: PairPool, hs: seq<Handle>, p: nat, alloc: Option<nat>) {
    var taken := Owners(hs, p) + Losses(hs, p);
    taken < pp.state.maxBlocks && (taken < |pp.state.blocks| || alloc.Some?)
  }

  /** What a construction comes to: a pair exactly when a state buffer can be had and an output block
      is free or can be allocated; a lost state buffer exactly when a state buffer can be had, every
      output block is owned and no more can be allocated; otherwise nothing has happened. */
  lemma PairTakes(pp: PairPool, hs: seq<Handle>, p: nat, sa: Option<nat>, oa: Option<nat>, lease: nat)
    requires PairInv(pp, hs, p) && Fresh(pp.state, sa) && Fresh(pp.output, oa)
    ensures var (qq, r) := AcquirePair(pp, sa, oa);
            && (r.Some? <==> StateToBeHad(pp, hs, p, sa) && (Owners(hs, p) < |pp.output.blocks| || oa.Some?))
            && (Leaks(pp, sa, oa) <==> StateToBeHad(pp, hs, p, sa) && Owners(hs, p) == |pp.output.blocks| && oa.None?)
            && (r.None? && qq != pp <==> Leaks(pp, sa, oa))
            && (r.Some? ==> PairInv(qq, hs + [Owning(p, lease, r.value.0, r.value.1)], p))
            && (Leaks(pp, sa, oa) ==> PairInv(qq, hs + [Lost(p, M.Acquire(pp.state, sa).1.ptr)], p))
  {
    hide M.Acquire, M.Sound, Owners, Losses, Takers, Holders, Leased;
    TakersAre(hs, p);
    M.AcquireEffect(pp.state, sa);
    M.AcquireEffect(pp.output, oa);
    M.UsedBounds(pp.output.blocks);
    var (qq, r) := AcquirePair(pp, sa, oa);
    if r.Some? {
      var h := Owning(p, lease, r.value.0, r.value.1);
      SideTakes(pp.state, hs, p, State, sa, h);
      SideTakes(pp.output, hs, p, Output, oa, h);
    } else if Leaks(pp, sa, oa) {
      var h := Lost(p, M.Acquire(pp.state, sa).1.ptr);
      SideTakes(pp.state, hs, p, State, sa, h);
      SideStays(pp.output, hs, p, Output, 0, h);
      assert qq.state != pp.state;
    }
  }

  lemma ConstructKeepsInv(w: World, p: nat, sa: Option<nat>, oa: Option<nat>)
    requires Inv(w)
    ensures Inv(Apply(w, Construct(p, sa, oa)))
  {
    hide PairInv, AcquirePair, Leaks, StateToBeHad, Fresh;
    var t := Apply(w, Construct(p, sa, oa));
    if t != w {
      PairTakes(w.pools[p], w.handles, p, sa, oa, w.leases);
      var h := t.handles[|w.handles|];
      assert t.handles == w.handles + [h] && PairInv(t.pools[p], t.handles, p);
      forall q | 0 <= q < |w.pools| && q != p ensures PairInv(t.pools[q], t.handles, q) {
        OthersKeep(w.pools[q], w.handles, q, 0, h);
      }
    }
  }

  lemma LetGoKeepsInv(w: World, i: nat)
    requires Inv(w) && Live(w, i)
    ensures Inv(LetGo(w, i)) && LetGo(w, i).handles[i].Moved?
    ensures |LetGo(w, i).handles| == |w.handles| && |LetGo(w, i).pools| == |w.pools|
    ensures forall j :: 0 <= j < |w.handles| && j != i ==> LetGo(w, i).handles[j] == w.handles[j]
  {
    hide PairInv;
    var h := w.handles[i];
    if h.Owning? {
      PairGives(w.pools[h.pool], w.handles, h.pool, i);
      var t := LetGo(w, i);
      forall q | 0 <= q < |w.pools| && q != h.pool ensures PairInv(t.pools[q], t.handles, q) {
        OthersKeep(w.pools[q], w.handles, q, i, Moved);
      }
    }
  }

  lemma PairGives(pp: PairPool, hs: seq<Handle>, p: nat, i: nat)
    requires PairInv(pp, hs, p) && i < |hs| && Owns(hs[i], p)
    ensures PairInv(ReleasePair(pp, hs[i].state, hs[i].output), hs[i := Moved], p)
  {
    hide M.Release, SideInv;
    SideGives(pp.state, hs, p, State, i, hs[i].state);
    SideGives(pp.output, hs, p, Output, i, hs[i].output);
  }

  lemma ApplyKeepsInv(w: World, op: Op)
    requires Inv(w)
    ensures Inv(Apply(w, op))
  {
    hide PairInv, LetGo, AcquirePair, SameHoldings;
    match op
    case Construct(p, sa, oa) => ConstructKeepsInv(w, p, sa, oa);
    case MoveConstruct(i) =>
      if Live(w, i) {
        MoveHoldsSame(w.handles, i);
        SameHoldingsKeepInv(w, w.handles[i := Moved] + [w.handles[i]]);
      }
    case MoveAssign(t, s) =>
      if Live(w, t) && Live(w, s) && t != s {
        LetGoKeepsInv(w, t);
        var v := LetGo(w, t);
        AssignHoldsSame(v.handles, t, s);
        SameHoldingsKeepInv(v, v.handles[t := v.handles[s]][s := Moved]);
      }
    case Destroy(i) =>
      if Live(w, i) {
        LetGoKeepsInv(w, i);
        var v := LetGo(w, i);
        DestroyHoldsSame(v.handles, i);
        SameHoldingsKeepInv(v, v.handles[i := Dead]);
      }
  }

  lemma {:induction false} RunKeepsInv(sizes: seq<nat>, ops: seq<Op>)
    requires forall i :: 0 <= i < |sizes| ==> sizes[i] < TWO_64
    ensures Inv(Run(sizes, ops)) && |Run(sizes, ops).pools| == |sizes|
    ensures forall p :: 0 <= p < |sizes| ==> Run(sizes, ops).pools[p].state.maxBlocks == sizes[p]
    decreases |ops|
  {
    hide Inv, Apply;
    if ops == [] {
      InitInv(sizes);
    } else {
      RunKeepsInv(sizes, ops[..|ops| - 1]);
      var w, op := Run(sizes, ops[..|ops| - 1]), ops[|ops| - 1];
      ApplyKeepsInv(w, op);
      ApplyKeepsSizes(w, op);
    }
  }

  lemma InitInv(sizes: seq<nat>)
    requires forall i :: 0 <= i < |sizes| ==> sizes[i] < TWO_64
    ensures Inv(Init(sizes))
  {
  }

  lemma ApplyKeepsSizes(w: World, op: Op)
    ensures var t := Apply(w, op);
            && |t.pools| == |w.pools|
            && forall p :: 0 <= p < |w.pools| ==> t.pools[p].state.maxBlocks == w.pools[p].state.maxBlocks
  {
    hide Allocated, Leaks;
  }

  // ---------------------------------------------------------------- the results

  /** In every run, failing allocations included, the counter of the output pool is the number of its
      live owners, and that of the state pool exceeds it by the buffers lost. */
  lemma CountersAreOwners(sizes: seq<nat>, ops: seq<Op>, p: nat)
    requires p < |sizes| && forall i :: 0 <= i < |sizes| ==> sizes[i] < TWO_64
    ensures p < |Run(sizes, ops).pools|
    ensures var w := Run(sizes, ops);
            && w.pools[p].output.counter == M.Used(w.pools[p].output.blocks) == Owners(w.handles, p)
            && w.pools[p].state.counter == M.Used(w.pools[p].state.blocks)
               == Owners(w.handles, p) + Losses(w.handles, p) <= sizes[p]
  {
    hide Run, Owners, Losses, Takers, M.Used;
    RunKeepsInv(sizes, ops);
    var w := Run(sizes, ops);
    assert PairInv(w.pools[p], w.handles, p);
    TakersAre(w.handles, p);
    M.UsedBounds(w.pools[p].state.blocks);
  }

  /** When allocation does not fail, acquiring the output buffer cannot fail once the state buffer has
      been acquired; a construction succeeds exactly while the owners and the buffers already lost are
      fewer than the maximum, and a failed one changes nothing. */
  lemma OutputCannotFail(sizes: seq<nat>, ops: seq<Op>, p: nat, sa: nat, oa: nat)
    requires p < |sizes| && forall i :: 0 <= i < |sizes| ==> sizes[i] < TWO_64
    requires p < |Run(sizes, ops).pools|
    requires var pp := Run(sizes, ops).pools[p]; Fresh(pp.state, Some(sa)) && Fresh(pp.output, Some(oa))
    ensures var w := Run(sizes, ops);
            var pp := w.pools[p];
            var (qq, r) := AcquirePair(pp, Some(sa), Some(oa));
            && (M.Acquire(pp.state, Some(sa)).1.Acquired? ==> M.Acquire(pp.output, Some(oa)).1.Acquired?)
            && (r.Some? <==> Owners(w.handles, p) + Losses(w.handles, p) < sizes[p])
            && (r.None? ==> qq == pp)
  {
    hide Run, Owners, Losses, M.Acquire, Fresh, AcquirePair;
    RunKeepsInv(sizes, ops);
    var w := Run(sizes, ops);
    assert PairInv(w.pools[p], w.handles, p);
    PairTakes(w.pools[p], w.handles, p, Some(sa), Some(oa), w.leases);
  }

  /** A construction leaks - it throws and leaves the pools changed - exactly when a state buffer can be
      had, every output block is owned and allocating another fails. */
  lemma LeaksIff(sizes: seq<nat>, ops: seq<Op>, p: nat, sa: Option<nat>, oa: Option<nat>)
    requires p < |sizes| && forall i :: 0 <= i < |sizes| ==> sizes[i] < TWO_64
    requires p < |Run(sizes, ops).pools|
    requires var pp := Run(sizes, ops).pools[p]; Fresh(pp.state, sa) && Fresh(pp.output, oa)
    ensures var w := Run(sizes, ops);
            var pp, taken := w.pools[p], Owners(w.handles, p) + Losses(w.handles, p);
            var (qq, r) := AcquirePair(pp, sa, oa);
            r.None? && qq != pp <==>
              && taken < sizes[p] && (taken < |pp.state.blocks| || sa.Some?)
              && Owners(w.handles, p) == |pp.output.blocks| && oa.None?
  {
    hide Run, Owners, Losses, Fresh, AcquirePair, Leaks;
    RunKeepsInv(sizes, ops);
    var w := Run(sizes, ops);
    assert PairInv(w.pools[p], w.handles, p);
    PairTakes(w.pools[p], w.handles, p, sa, oa, w.leases);
  }

  /** What is lost stays lost, so the pair pool gets that much smaller for good. */
  lemma {:induction false} LossesStay(sizes: seq<nat>, ops: seq<Op>, more: seq<Op>, i: nat)
    requires i < |Run(sizes, ops).handles| && Run(sizes, ops).handles[i].Lost?
    ensures var w, t := Run(sizes, ops), Run(sizes, ops + more);
            i < |t.handles| && t.handles[i] == w.handles[i]
    decreases |more|
  {
    hide Apply;
    if more == [] {
      assert ops + more == ops;
    } else {
      var before := more[..|more| - 1];
      assert (ops + more)[..|ops + more| - 1] == ops + before;
      LossesStay(sizes, ops, before, i);
      LossStays(Run(sizes, ops + before), more[|more| - 1], i);
    }
  }

  lemma LossStays(w: World, op: Op, i: nat)
    requires i < |w.handles| && w.handles[i].Lost?
    ensures i < |Apply(w, op).handles| && Apply(w, op).handles[i] == w.handles[i]
  {
    hide AcquirePair, Leaks, Allocated, ReleasePair;
  }

  // ---------------------------------------------------------------- ownership

  lemma RunAppend(sizes: seq<nat>, ops: seq<Op>, op: Op)
    ensures Run(sizes, ops + [op]) == Apply(Run(sizes, ops), op)
  {
    assert (ops + [op])[..|ops|] == ops;
  }

  /** The lease a handle gives back when it lets go. */
  function GivenBack(h: Handle): seq<nat> { if h.Owning? then [h.lease] else [] }

  predicate SameBut(hs: seq<Handle>, gs: seq<Handle>, i: nat, j: nat) {
    |gs| >= |hs| && forall k :: 0 <= k < |hs| && k != i && k != j ==> gs[k] == hs[k]
  }

  /** Who owns what afterwards: a moved-to owner holds what the source held and the source nothing; an
      owner that is assigned to or destroyed has given its own pair back before, and nothing else is
      given back or changes hands. */
  lemma OwnershipMoves(sizes: seq<nat>, ops: seq<Op>, i: nat, j: nat)
    requires forall i :: 0 <= i < |sizes| ==> sizes[i] < TWO_64
    requires var hs := Run(sizes, ops).handles;
             && i < |hs| && j < |hs|
             && (hs[i].Owning? || hs[i].Moved?) && (hs[j].Owning? || hs[j].Moved?)
    ensures var w, t := Run(sizes, ops), Run(sizes, ops + [MoveConstruct(i)]);
            && |t.handles| == |w.handles| + 1 && t.handles[|w.handles|] == w.handles[i] && t.handles[i].Moved?
            && SameBut(w.handles, t.handles, i, i) && t.released == w.released && t.pools == w.pools
    ensures var w, t := Run(sizes, ops), Run(sizes, ops + [MoveAssign(i, j)]);
            if i == j then t == w
            else
              && |t.handles| == |w.handles| && t.handles[i] == w.handles[j] && t.handles[j].Moved?
              && SameBut(w.handles, t.handles, i, j) && t.released == w.released + GivenBack(w.handles[i])
    ensures var w, t := Run(sizes, ops), Run(sizes, ops + [Destroy(i)]);
            && |t.handles| == |w.handles| && t.handles[i].Dead?
            && SameBut(w.handles, t.handles, i, i) && t.released == w.released + GivenBack(w.handles[i])
  {
    hide Run, ReleasePair, PairInv, Allocated, AcquirePair, Leaks;
    RunKeepsInv(sizes, ops);
    RunAppend(sizes, ops, MoveConstruct(i));
    RunAppend(sizes, ops, MoveAssign(i, j));
    RunAppend(sizes, ops, Destroy(i));
  }

  /** A construction that succeeds adds one owner, of a new lease, and one that loses a state buffer is
      put on record; either changes the pool it is made in as the acquisitions do.  Any other changes
      nothing. */
  lemma ConstructionAdds(sizes: seq<nat>, ops: seq<Op>, p: nat, sa: Option<nat>, oa: Option<nat>)
    requires forall i :: 0 <= i < |sizes| ==> sizes[i] < TWO_64
    requires p < |Run(sizes, ops).pools| && Allocated(Run(sizes, ops).pools, sa, oa)
    ensures var w, t := Run(sizes, ops), Run(sizes, ops + [Construct(p, sa, oa)]);
            var (qq, r) := AcquirePair(w.pools[p], sa, oa);
            && t.pools == w.pools[p := qq] && t.released == w.released
            && t.leases == w.leases + One(r.Some?)
            && w.handles <= t.handles && |t.handles| == |w.handles| + One(qq != w.pools[p] || r.Some?)
            && (r.Some? ==> t.handles[|w.handles|] == Owning(p, w.leases, r.value.0, r.value.1))
            && (r.None? && qq != w.pools[p] ==> t.handles[|w.handles|].Lost? && t.handles[|w.handles|].pool == p)
  {
    hide Run, Allocated, StateToBeHad, M.Acquire, SideInv;
    RunKeepsInv(sizes, ops);
    RunAppend(sizes, ops, Construct(p, sa, oa));
    var w := Run(sizes, ops);
    assert PairInv(w.pools[p], w.handles, p);
    AllocatedIsFresh(w.pools, p, sa, oa);
    PairTakes(w.pools[p], w.handles, p, sa, oa, w.leases);
    assert w.pools[p := w.pools[p]] == w.pools;
  }

  lemma AllocatedIsFresh(pools: seq<PairPool>, p: nat, sa: Option<nat>, oa: Option<nat>)
    requires p < |pools| && Allocated(pools, sa, oa)
    ensures Fresh(pools[p].state, sa) && Fresh(pools[p].output, oa)
  {
    hide Fresh;
  }

  // ---------------------------------------------------------------- addresses

  function PoolOf(pp: PairPool, side: Side): M.Pool { if side.State? then pp.state else pp.output }

  /** A block of this pool is at address `x`. */
  predicate Has(pools: seq<PairPool>, p: nat, side: Side, x: nat) {
    p < |pools| && M.At(PoolOf(pools[p], side).blocks, x) > 0
  }

  /** No two pools have a block at one address. */
  ghost predicate Apart(pools: seq<PairPool>) {
    forall p: nat, q: nat, s, t, x: nat :: Has(pools, p, s, x) && Has(pools, q, t, x) ==> p == q && s == t
  }

  /** One pair changes, and only by addresses that were unclaimed. */
  lemma PairKeepsApart(pools: seq<PairPool>, p: nat, pp: PairPool, sa: Option<nat>, oa: Option<nat>)
    requires Apart(pools) && p < |pools| && Allocated(pools, sa, oa)
    requires forall x: nat :: Has([pp], 0, State, x) ==> Has(pools, p, State, x) || sa == Some(x)
    requires forall x: nat :: Has([pp], 0, Output, x) ==> Has(pools, p, Output, x) || oa == Some(x)
    ensures Apart(pools[p := pp])
  {
    var after := pools[p := pp];
    forall q: nat, s, x: nat | Has(after, q, s, x)
      ensures Has(pools, q, s, x) || (q == p && (if s.State? then sa else oa) == Some(x))
    {
      if q == p { assert Has([pp], 0, s, x); } else { assert Has(pools, q, s, x); }
    }
    forall q: nat, s, x: nat | Has(pools, q, s, x) ensures sa != Some(x) && oa != Some(x) {
      assert Fresh(pools[q].state, sa) && Fresh(pools[q].output, sa);
      assert Fresh(pools[q].state, oa) && Fresh(pools[q].output, oa);
    }
  }

  lemma AcquiredAddresses(pp: PairPool, sa: Option<nat>, oa: Option<nat>, x: nat)
    ensures var qq := AcquirePair(pp, sa, oa).0;
            && (Has([qq], 0, State, x) ==> Has([pp], 0, State, x) || sa == Some(x))
            && (Has([qq], 0, Output, x) ==> Has([pp], 0, Output, x) || oa == Some(x))
  {
    hide M.Acquire, M.At;
    M.AcquireAddresses(pp.state, sa, x);
    M.AcquireAddresses(pp.output, oa, x);
  }

  lemma LetGoKeepsApart(w: World, i: nat)
    requires Apart(w.pools) && i < |w.handles|
    ensures Apart(LetGo(w, i).pools)
  {
    hide M.Release, M.At;
    var h := w.handles[i];
    if h.Owning? && h.pool < |w.pools| {
      var pp := ReleasePair(w.pools[h.pool], h.state, h.output);
      forall x: nat ensures Has([pp], 0, State, x) == Has(w.pools, h.pool, State, x)
        ensures Has([pp], 0, Output, x) == Has(w.pools, h.pool, Output, x)
      {
        M.ReleaseAddresses(w.pools[h.pool].state, h.state, x);
        M.ReleaseAddresses(w.pools[h.pool].output, h.output, x);
      }
      PairKeepsApart(w.pools, h.pool, pp, None, None);
    }
  }

  lemma ApplyKeepsApart(w: World, op: Op)
    requires Apart(w.pools)
    ensures Apart(Apply(w, op).pools)
  {
    hide Apart, Allocated, LetGo, AcquirePair, Leaks;
    match op
    case Construct(p, sa, oa) =>
      if p < |w.pools| && Allocated(w.pools, sa, oa) {
        var pp := AcquirePair(w.pools[p], sa, oa).0;
        forall x: nat ensures Has([pp], 0, State, x) ==> Has(w.pools, p, State, x) || sa == Some(x)
          ensures Has([pp], 0, Output, x) ==> Has(w.pools, p, Output, x) || oa == Some(x)
        {
          AcquiredAddresses(w.pools[p], sa, oa, x);
        }
        PairKeepsApart(w.pools, p, pp, sa, oa);
      }
    case MoveConstruct(i) =>
    case MoveAssign(t, s) => if Live(w, t) { LetGoKeepsApart(w, t); }
    case Destroy(i) => if Live(w, i) { LetGoKeepsApart(w, i); }
  }

  lemma {:induction false} RunKeepsApart(sizes: seq<nat>, ops: seq<Op>)
    ensures Apart(Run(sizes, ops).pools)
    decreases |ops|
  {
    hide Apply;
    if ops != [] {
      hide Apart;
      RunKeepsApart(sizes, ops[..|ops| - 1]);
      ApplyKeepsApart(Run(sizes, ops[..|ops| - 1]), ops[|ops| - 1]);
    }
  }

  /** Live owners hold pairwise distinct buffers, of whatever pools, and no state buffer is an output
      buffer. */
  lemma BuffersAreDistinct(sizes: seq<nat>, ops: seq<Op>, i: nat, j: nat)
    requires forall i :: 0 <= i < |sizes| ==> sizes[i] < TWO_64
    requires var hs := Run(sizes, ops).handles; i < |hs| && j < |hs| && hs[i].Owning? && hs[j].Owning?
    ensures var hs := Run(sizes, ops).handles;
            && (i != j ==> hs[i].state != hs[j].state && hs[i].output != hs[j].output)
            && hs[i].state != hs[j].output
  {
    hide Run, Inv, Apart;
    RunKeepsInv(sizes, ops);
    RunKeepsApart(sizes, ops);
    var w := Run(sizes, ops);
    var p, q := w.handles[i].pool, w.handles[j].pool;
    OwnedIsThere(w, i);
    OwnedIsThere(w, j);
    if p == q && i < j { SamePoolDistinct(w, i, j); }
    if p == q && j < i { SamePoolDistinct(w, j, i); }
    if p != q { OtherPoolDistinct(w.pools, p, q, State, w.handles[i].state, State, w.handles[j].state); }
    if p != q { OtherPoolDistinct(w.pools, p, q, Output, w.handles[i].output, Output, w.handles[j].output); }
    OtherPoolDistinct(w.pools, p, q, State, w.handles[i].state, Output, w.handles[j].output);
  }

  lemma OtherPoolDistinct(pools: seq<PairPool>, p: nat, q: nat, s: Side, x: nat, t: Side, y: nat)
    requires Apart(pools) && Has(pools, p, s, x) && Has(pools, q, t, y) && (p != q || s != t)
    ensures x != y
  {
    hide M.At;
  }

  /** What is held is a block of the pool it was acquired from. */
  lemma OwnedIsThere(w: World, i: nat)
    requires Inv(w) && i < |w.handles| && w.handles[i].Owning?
    ensures var h := w.handles[i]; Has(w.pools, h.pool, State, h.state) && Has(w.pools, h.pool, Output, h.output)
  {
    hide M.At, M.InUseAt, M.Used, M.Sound, Holders, Takers;
    var h := w.handles[i];
    var pp := w.pools[h.pool];
    assert PairInv(pp, w.handles, h.pool);
    HolderCounts(w.handles, i, h.pool, State, h.state);
    HolderCounts(w.handles, i, h.pool, Output, h.output);
    InUseAtMost(pp.state.blocks, h.state);
    InUseAtMost(pp.output.blocks, h.output);
  }

  lemma SamePoolDistinct(w: World, i: nat, j: nat)
    requires Inv(w) && i < j < |w.handles| && w.handles[i].Owning? && Owns(w.handles[j], w.handles[i].pool)
    ensures w.handles[i].state != w.handles[j].state && w.handles[i].output != w.handles[j].output
  {
    hide SideInv;
    var p := w.handles[i].pool;
    assert PairInv(w.pools[p], w.handles, p);
    SideIsDistinct(w.pools[p].state, w.handles, i, j, p, State);
    SideIsDistinct(w.pools[p].output, w.handles, i, j, p, Output);
  }

  lemma SideIsDistinct(pool: M.Pool, hs: seq<Handle>, i: nat, j: nat, p: nat, side: Side)
    requires SideInv(pool, hs, p, side) && i < j < |hs| && Owns(hs[i], p) && Owns(hs[j], p)
    ensures side.State? ==> hs[i].state != hs[j].state
    ensures side.Output? ==> hs[i].output != hs[j].output
  {
    hide M.At, M.InUseAt, M.Used, Holders, Takers;
    var x := if side.State? then hs[i].state else hs[i].output;
    InUseAtMost(pool.blocks, x);
    if HasPtr(hs[j], p, side, x) { TwoHolders(hs, i, j, p, side, x); }
  }

  lemma {:induction false} InUseAtMost(blocks: seq<M.Block>, x: nat)
    ensures M.InUseAt(blocks, x) <= M.At(blocks, x)
  {
    if blocks != [] { InUseAtMost(blocks[..|blocks| - 1], x); }
  }

  /** Every constructed pair is either held by exactly one owner or has been released exactly once,
      through any mix of moves, assignments and destructions. */
  lemma {:induction false} ReleasedOnce(sizes: seq<nat>, ops: seq<Op>, k: nat)
    requires forall i :: 0 <= i < |sizes| ==> sizes[i] < TWO_64
    ensures var w := Run(sizes, ops);
            Count(w.released, k) + Leased(w.handles, k) == One(k < w.leases)
    decreases |ops|
  {
    hide Apply, Count, Leased;
    if ops == [] {
      NoLeases(k);
    } else {
      var w, op := Run(sizes, ops[..|ops| - 1]), ops[|ops| - 1];
      ReleasedOnce(sizes, ops[..|ops| - 1], k);
      RunKeepsInv(sizes, ops[..|ops| - 1]);
      LeaseStep(w, op, k);
    }
  }

  lemma NoLeases(k: nat)
    ensures Count([], k) == 0 && Leased([], k) == 0
  {
  }

  function Balance(w: World, k: nat): nat { Count(w.released, k) + Leased(w.handles, k) }

  lemma LeaseStep(w: World, op: Op, k: nat)
    requires Inv(w)
    ensures var t := Apply(w, op);
            && Balance(t, k) == Balance(w, k) + One(t.leases != w.leases && k == w.leases)
            && w.leases <= t.leases <= w.leases + 1
  {
    hide PairInv, LetGo, AcquirePair, Count, Leased, Takers, Holders, Allocated, Leaks;
    match op
    case Construct(p, sa, oa) =>
      var t := Apply(w, op);
      if |t.handles| > |w.handles| { HandleAppend(w.handles, t.handles[|w.handles|], 0, State, k); }
    case MoveConstruct(i) =>
      if Live(w, i) {
        MoveHoldsSame(w.handles, i);
        SameLeases(w.handles, w.handles[i := Moved] + [w.handles[i]], k);
      }
    case MoveAssign(t, s) =>
      if Live(w, t) && Live(w, s) && t != s {
        LetGoBalances(w, t, k);
        LetGoKeepsInv(w, t);
        var v := LetGo(w, t);
        AssignHoldsSame(v.handles, t, s);
        SameLeases(v.handles, v.handles[t := v.handles[s]][s := Moved], k);
      }
    case Destroy(i) =>
      if Live(w, i) {
        LetGoBalances(w, i, k);
        LetGoKeepsInv(w, i);
        var v := LetGo(w, i);
        DestroyHoldsSame(v.handles, i);
        SameLeases(v.handles, v.handles[i := Dead], k);
      }
  }

  lemma SameLeases(hs: seq<Handle>, gs: seq<Handle>, k: nat)
    requires SameHoldings(hs, gs)
    ensures Leased(hs, k) == Leased(gs, k)
  {
    hide Takers, Leased;
    assert SameAt(hs, gs, 0, State, k);
  }

  lemma LetGoBalances(w: World, i: nat, k: nat)
    requires i < |w.handles|
    ensures Balance(LetGo(w, i), k) == Balance(w, k) && LetGo(w, i).leases == w.leases
  {
    hide Leased, Takers, Holders;
    var h := w.handles[i];
    if h.Owning? && h.pool < |w.pools| {
      HandleUpdate(w.handles, i, Moved, 0, State, k);
      CountAppend(w.released, h.lease, k);
    }
  }

  // ---------------------------------------------------------------- the classes

  class InferenceBufferPool {
    const statePool: M.MemoryPool
    const outputPool: M.MemoryPool

    ghost predicate Valid() { statePool != outputPool }

    ghost function View(): PairPool
      reads statePool, outputPool
    {
      PairPool(statePool.View(), outputPool.View())
    }

    constructor (maxBuffers: nat)
      ensures Valid() && fresh(statePool) && fresh(outputPool)
      ensures View() == PairPool(M.Init(maxBuffers), M.Init(maxBuffers))
    {
      statePool := new M.MemoryPool(maxBuffers);
      outputPool := new M.MemoryPool(maxBuffers);
    }

    method AcquireBuffers(stateAlloc: Option<nat>, outputAlloc: Option<nat>) returns (r: Option<(nat, nat)>)
      requires Valid()
      modifies statePool, outputPool
      ensures (View(), r) == AcquirePair(old(View()), stateAlloc, outputAlloc)
    {
      var state := statePool.AcquireBlock(stateAlloc);
      if !state.Acquired? {
        return None;
      }
      var output := outputPool.AcquireBlock(outputAlloc);
      if !output.Acquired? {
        return None;
      }
      r := Some((state.ptr, output.ptr));
    }

    method ReleaseBuffers(state: nat, output: nat)
      requires Valid()
      modifies statePool, outputPool
      ensures View() == ReleasePair(old(View()), state, output)
    {
      statePool.ReleaseBlock(state);
      outputPool.ReleaseBlock(output);
    }
  }

  class ScopedInferenceBuffer {
    var pool: InferenceBufferPool?
    var state: nat
    var output: nat

    ghost predicate Valid()
      reads this
    {
      pool != null ==> pool.Valid()
    }

    /** What a release through this owner may change. */
    ghost function Pools(): set<object>
      reads this
    {
      if pool == null then {} else {pool.statePool, pool.outputPool}
    }

    /** The constructor's member initialiser has acquired the pair. */
    constructor (pool: InferenceBufferPool, pair: (nat, nat))
      requires pool.Valid()
      ensures Valid() && this.pool == pool && (state, output) == pair
    {
      this.pool, state, output := pool, pair.0, pair.1;
    }

    /** Acquires a pair and wraps it, or throws. */
    static method Construct(pool: InferenceBufferPool, stateAlloc: Option<nat>, outputAlloc: Option<nat>)
      returns (r: ScopedInferenceBuffer?)
      requires pool.Valid()
      modifies pool.statePool, pool.outputPool
      ensures pool.View() == AcquirePair(old(pool.View()), stateAlloc, outputAlloc).0
      ensures var pair := AcquirePair(old(pool.View()), stateAlloc, outputAlloc).1;
              && (r != null <==> pair.Some?)
              && (r != null ==> fresh(r) && r.Valid() && r.pool == pool && Some((r.state, r.output)) == pair)
    {
      var pair := pool.AcquireBuffers(stateAlloc, outputAlloc);
      if pair.None? {
        return null;
      }
      r := new ScopedInferenceBuffer(pool, pair.value);
    }

    /** The destructor. */
    method DestroyBuffer()
      requires Valid()
      modifies Pools()
      ensures pool != null ==> pool.View() == ReleasePair(old(pool.View()), state, output)
    {
      if pool != null {
        pool.ReleaseBuffers(state, output);
      }
    }

    /** The move constructor. */
    constructor MoveFrom(other: ScopedInferenceBuffer)
      requires other.Valid()
      modifies other`pool
      ensures Valid() && other.Valid()
      ensures pool == old(other.pool) && state == other.state && output == other.output && other.pool == null
    {
      pool, state, output := other.pool, other.state, other.output;
      new;
      other.pool := null;
    }

    /** The move assignment. */
    method AssignFrom(other: ScopedInferenceBuffer)
      requires Valid() && other.Valid()
      modifies this, other`pool, Pools()
      ensures Valid() && other.Valid()
      ensures this == other ==> pool == old(pool) && state == old(state) && output == old(output)
      ensures this == other && pool != null ==> pool.View() == old(pool.View())
      ensures this != other ==>
                pool == old(other.pool) && state == other.state && output == other.output && other.pool == null
      ensures this != other && old(pool) != null ==>
                old(pool).View() == ReleasePair(old(pool.View()), old(state), old(output))
    {
      if this != other {
        if pool != null {
          pool.ReleaseBuffers(state, output);
        }
        pool, state, output := other.pool, other.state, other.output;
        other.pool := null;
      }
    }
  }
}
