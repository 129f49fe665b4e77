/** `MemoryPool` of memory_pool.h.

    A buffer is named by its address.  `make_unique` is a parameter: the address it returns, which
    no live block has, or nothing when it throws.  The mutex makes every method one step. */
module MemoryPool {

  import opened Common

  datatype Block = Block(ptr: nat, inUse: bool)

  datatype Pool = Pool(blocks: seq<Block>, maxBlocks: nat, counter: nat)

  datatype Acquired = Acquired(ptr: nat) | Exhausted | AllocationFailed

  function Init(maxBlocks: nat): Pool { Pool([], maxBlocks, 0) }

  // ---------------------------------------------------------------- the operations

  /** The first free block, or the number of blocks. */
  function FirstFree(blocks: seq<Block>): (i: nat)
    ensures i <= |blocks| && (i < |blocks| ==> !blocks[i].inUse)
    ensures forall j :: 0 <= j < i ==> blocks[j].inUse
  {
    if blocks == [] || !blocks[0].inUse then 0 else 1 + FirstFree(blocks[1..])
  }

  /** The first block at `ptr`, or the number of blocks. */
  function IndexOf(blocks: seq<Block>, ptr: nat): (i: nat)
    ensures i <= |blocks| && (i < |blocks| ==> blocks[i].ptr == ptr)
    ensures forall j :: 0 <= j < i ==> blocks[j].ptr != ptr
  {
    if blocks == [] || blocks[0].ptr == ptr then 0 else 1 + IndexOf(blocks[1..], ptr)
  }

  function Acquire(p: Pool, alloc: Option<nat>): (Pool, Acquired) {
    var i := FirstFree(p.blocks);
    if i < |p.blocks| then
      (Pool(p.blocks[i := p.blocks[i].(inUse := true)], p.maxBlocks, p.counter + 1), Acquired(p.blocks[i].ptr))
    else if |p.blocks| >= p.maxBlocks then (p, Exhausted)
    else if alloc.None? then (p, AllocationFailed)
    else (Pool(p.blocks + [Block(alloc.value, true)], p.maxBlocks, p.counter + 1), Acquired(alloc.value))
  }

  function Release(p: Pool, ptr: nat): Pool {
    var i := IndexOf(p.blocks, ptr);
    if i == |p.blocks| then p
    else Pool(p.blocks[i := p.blocks[i].(inUse := false)], p.maxBlocks, (p.counter - 1) % TWO_64)
  }

  function Fresh(ptrs: seq<nat>): (r: seq<Block>)
    ensures |r| == |ptrs| && forall i :: 0 <= i < |r| ==> r[i] == Block(ptrs[i], false)
  {
    seq(|ptrs|, i requires 0 <= i < |ptrs| => Block(ptrs[i], false))
  }

  function Sum64(a: nat, b: nat): nat { (a + b) % TWO_64 }

  /** How many blocks it takes to the size to grow to; the sum wraps in 64 bits. */
  function Wanted(p: Pool, count: nat): nat {
    var size := Sum64(|p.blocks|, count);
    var target := if size < p.maxBlocks then size else p.maxBlocks;
    if target < |p.blocks| then 0 else target - |p.blocks|
  }

  /** `allocs` are the addresses to be had before `make_unique` first throws. */
  function Preallocate(p: Pool, count: nat, allocs: seq<nat>): Pool {
    var wanted := Wanted(p, count);
    p.(blocks := p.blocks + Fresh(if wanted < |allocs| then allocs[..wanted] else allocs))
  }

  function InUseOnly(blocks: seq<Block>): seq<Block> {
    if blocks == [] then []
    else
      var last := blocks[|blocks| - 1];
      InUseOnly(blocks[..|blocks| - 1]) + if last.inUse then [last] else []
  }

  function Clear(p: Pool): Pool { Pool(InUseOnly(p.blocks), p.maxBlocks, Used(p.blocks)) }

  // ---------------------------------------------------------------- counting

  function Used(blocks: seq<Block>): nat {
    if blocks == [] then 0 else Used(blocks[..|blocks| - 1]) + One(blocks[|blocks| - 1].inUse)
  }

  /** Blocks at address `x`. */
  function At(blocks: seq<Block>, x: nat): nat {
    if blocks == [] then 0 else At(blocks[..|blocks| - 1], x) + One(blocks[|blocks| - 1].ptr == x)
  }

  /** Blocks in use at address `x`. */
  function InUseAt(blocks: seq<Block>, x: nat): nat {
    if blocks == [] then 0
    else InUseAt(blocks[..|blocks| - 1], x) + One(blocks[|blocks| - 1] == Block(x, true))
  }

  lemma BlockAppend(blocks: seq<Block>, b: Block, x: nat)
    ensures Used(blocks + [b]) == Used(blocks) + One(b.inUse)
    ensures At(blocks + [b], x) == At(blocks, x) + One(b.ptr == x)
    ensures InUseAt(blocks + [b], x) == InUseAt(blocks, x) + One(b == Block(x, true))
  {
    assert (blocks + [b])[..|blocks|] == blocks;
  }

  lemma {:induction false} BlockUpdate(blocks: seq<Block>, i: nat, b: Block, x: nat)
    requires i < |blocks|
    ensures Used(blocks[i := b]) + One(blocks[i].inUse) == Used(blocks) + One(b.inUse)
    ensures At(blocks[i := b], x) + One(blocks[i].ptr == x) == At(blocks, x) + One(b.ptr == x)
    ensures InUseAt(blocks[i := b], x) + One(blocks[i] == Block(x, true))
         == InUseAt(blocks, x) + One(b == Block(x, true))
  {
    var last := |blocks| - 1;
    if i == last {
      assert blocks[i := b][..last] == blocks[..last];
    } else {
      BlockUpdate(blocks[..last], i, b, x);
      assert blocks[i := b][..last] == blocks[..last][i := b];
    }
  }

  lemma {:induction false} UsedBounds(blocks: seq<Block>)
    ensures Used(blocks) <= |blocks|
    ensures Used(blocks) == |blocks| <==> FirstFree(blocks) == |blocks|
  {
    if blocks != [] {
      var last := |blocks| - 1;
      UsedBounds(blocks[..last]);
      FreeOfPrefix(blocks);
    }
  }

  lemma FreeOfPrefix(blocks: seq<Block>)
    requires blocks != []
    ensures FirstFree(blocks) == |blocks|
       <==> blocks[|blocks| - 1].inUse && FirstFree(blocks[..|blocks| - 1]) == |blocks| - 1
  {
    hide FirstFree;
    var prefix := blocks[..|blocks| - 1];
    var i, j := FirstFree(blocks), FirstFree(prefix);
    assert j < |prefix| ==> !blocks[j].inUse;
    assert i < |prefix| ==> !prefix[i].inUse;
  }

  /** A block in use at `x` is found there, in use, when no address occurs twice. */
  lemma {:induction false} FoundInUse(blocks: seq<Block>, x: nat, i: nat)
    requires i < |blocks| && blocks[i].ptr == x && At(blocks, x) <= 1
    ensures InUseAt(blocks, x) == One(blocks[i].inUse)
  {
    var last := |blocks| - 1;
    if i == last {
      NoneThere(blocks[..last], x);
    } else {
      SomeThere(blocks[..last], x, i);
      FoundInUse(blocks[..last], x, i);
    }
  }

  lemma {:induction false} NoneThere(blocks: seq<Block>, x: nat)
    requires At(blocks, x) == 0
    ensures InUseAt(blocks, x) == 0
  {
    if blocks != [] { NoneThere(blocks[..|blocks| - 1], x); }
  }

  lemma {:induction false} SomeThere(blocks: seq<Block>, x: nat, i: nat)
    requires i < |blocks| && blocks[i].ptr == x
    ensures At(blocks, x) >= 1
  {
    if i < |blocks| - 1 { SomeThere(blocks[..|blocks| - 1], x, i); }
  }

  lemma {:induction false} NotThere(blocks: seq<Block>, x: nat)
    requires forall j :: 0 <= j < |blocks| ==> blocks[j].ptr != x
    ensures At(blocks, x) == 0 && InUseAt(blocks, x) == 0
  {
    if blocks != [] { NotThere(blocks[..|blocks| - 1], x); }
  }

  // ---------------------------------------------------------------- what the operations do

  /** The pool's own invariant: no address twice, no more blocks than allowed, and the counter is the
      number of blocks in use. */
  ghost predicate Sound(p: Pool) {
    && |p.blocks| <= p.maxBlocks < TWO_64
    && p.counter == Used(p.blocks)
    && forall x :: At(p.blocks, x) <= 1
  }

  /** `acquire` hands out a buffer nobody holds, and fails only when every block is in use and there
      may be no more, or a new one cannot be allocated. */
  lemma AcquireEffect(p: Pool, alloc: Option<nat>)
    requires Sound(p) && (alloc.Some? ==> At(p.blocks, alloc.value) == 0)
    ensures var (q, r) := Acquire(p, alloc);
            && Sound(q) && q.maxBlocks == p.maxBlocks
            && (r.Acquired? <==> Used(p.blocks) < p.maxBlocks && (Used(p.blocks) < |p.blocks| || alloc.Some?))
            && (!r.Acquired? ==> q == p)
            && (r.Acquired? ==> InUseAt(p.blocks, r.ptr) == 0 && Used(q.blocks) == Used(p.blocks) + 1)
            && (r.Acquired? ==> forall x :: InUseAt(q.blocks, x) == InUseAt(p.blocks, x) + One(x == r.ptr))
  {
    hide Used, At, InUseAt;
    UsedBounds(p.blocks);
    var (q, r) := Acquire(p, alloc);
    var i := FirstFree(p.blocks);
    if r.Acquired? {
      forall x
        ensures At(q.blocks, x) <= 1 && InUseAt(q.blocks, x) == InUseAt(p.blocks, x) + One(x == r.ptr)
        ensures Used(q.blocks) == Used(p.blocks) + 1
      {
        if i < |p.blocks| {
          BlockUpdate(p.blocks, i, p.blocks[i].(inUse := true), x);
        } else {
          BlockAppend(p.blocks, Block(r.ptr, true), x);
        }
      }
      assert At(q.blocks, 0) <= 1;
      if i < |p.blocks| { FoundInUse(p.blocks, r.ptr, i); } else { NoneThere(p.blocks, r.ptr); }
    }
  }

  /** The first free block, if any. */
  ghost predicate IsFirstFree(blocks: seq<Block>, i: nat) {
    i < |blocks| && !blocks[i].inUse && forall j :: 0 <= j < i ==> blocks[j].inUse
  }

  /** A free block is reused before a new one is made, and the first of them; a failed `acquire` says
      why. */
  lemma AcquireReuses(p: Pool, alloc: Option<nat>, i: nat)
    ensures var (q, r) := Acquire(p, alloc);
            && (IsFirstFree(p.blocks, i) ==>
                  r == Acquired(p.blocks[i].ptr) && q.blocks == p.blocks[i := Block(p.blocks[i].ptr, true)])
            && (Used(p.blocks) == |p.blocks| < p.maxBlocks && alloc.Some? ==>
                  r == Acquired(alloc.value) && q.blocks == p.blocks + [Block(alloc.value, true)])
            && (r.Exhausted? <==> Used(p.blocks) == |p.blocks| >= p.maxBlocks)
            && (r.AllocationFailed? <==> Used(p.blocks) == |p.blocks| < p.maxBlocks && alloc.None?)
  {
    UsedBounds(p.blocks);
  }

  /** `release` of a buffer in use frees that buffer and nothing else. */
  lemma ReleaseEffect(p: Pool, ptr: nat)
    requires Sound(p) && InUseAt(p.blocks, ptr) > 0
    ensures var q := Release(p, ptr);
            && Sound(q) && q.maxBlocks == p.maxBlocks && Used(q.blocks) + 1 == Used(p.blocks)
            && (forall x :: InUseAt(q.blocks, x) + One(x == ptr) == InUseAt(p.blocks, x))
  {
    hide Used, At, InUseAt;
    var q, i := Release(p, ptr), IndexOf(p.blocks, ptr);
    UsedBounds(p.blocks);
    if i == |p.blocks| { NotThere(p.blocks, ptr); }
    FoundInUse(p.blocks, ptr, i);
    forall x
      ensures At(q.blocks, x) <= 1 && InUseAt(q.blocks, x) + One(x == ptr) == InUseAt(p.blocks, x)
      ensures Used(q.blocks) + 1 == Used(p.blocks)
    {
      BlockUpdate(p.blocks, i, p.blocks[i].(inUse := false), x);
    }
    assert At(q.blocks, 0) <= 1;
  }

  /** An `acquire` puts no other address into the pool than the one it allocated. */
  lemma AcquireAddresses(p: Pool, alloc: Option<nat>, x: nat)
    ensures At(Acquire(p, alloc).0.blocks, x) <= At(p.blocks, x) + One(alloc == Some(x))
  {
    hide Used, At, InUseAt;
    var i := FirstFree(p.blocks);
    if i < |p.blocks| {
      BlockUpdate(p.blocks, i, p.blocks[i].(inUse := true), x);
    } else if alloc.Some? {
      BlockAppend(p.blocks, Block(alloc.value, true), x);
    }
  }

  lemma ReleaseAddresses(p: Pool, ptr: nat, x: nat)
    ensures At(Release(p, ptr).blocks, x) == At(p.blocks, x)
  {
    hide Used, At, InUseAt;
    var i := IndexOf(p.blocks, ptr);
    if i < |p.blocks| { BlockUpdate(p.blocks, i, p.blocks[i].(inUse := false), x); }
  }

  /** The counter survives a `release` exactly when the pointer is foreign or its block is in use:
      releasing a buffer twice takes the counter below the number in use. */
  lemma ReleaseCountsIff(p: Pool, ptr: nat)
    requires Sound(p)
    ensures var q, i := Release(p, ptr), IndexOf(p.blocks, ptr);
            q.counter == Used(q.blocks) <==> i == |p.blocks| || p.blocks[i].inUse
  {
    hide Used, At, InUseAt;
    var i := IndexOf(p.blocks, ptr);
    UsedBounds(p.blocks);
    if i < |p.blocks| {
      BlockUpdate(p.blocks, i, p.blocks[i].(inUse := false), ptr);
      UsedBounds(Release(p, ptr).blocks);
    }
  }

  ghost predicate Distinct(ptrs: seq<nat>) { forall i, j :: 0 <= i < j < |ptrs| ==> ptrs[i] != ptrs[j] }

  lemma {:induction false} FreshBlocks(blocks: seq<Block>, ptrs: seq<nat>, x: nat)
    requires Distinct(ptrs) && At(blocks, x) <= 1
    requires forall i :: 0 <= i < |ptrs| ==> At(blocks, ptrs[i]) == 0
    ensures Used(blocks + Fresh(ptrs)) == Used(blocks)
    ensures InUseAt(blocks + Fresh(ptrs), x) == InUseAt(blocks, x)
    ensures At(blocks + Fresh(ptrs), x) == At(blocks, x) + One(x in ptrs) <= 1
    decreases |ptrs|
  {
    hide Used, At, InUseAt;
    if ptrs == [] {
      assert blocks + Fresh(ptrs) == blocks;
    } else {
      var last := |ptrs| - 1;
      FreshBlocks(blocks, ptrs[..last], x);
      BlockAppend(blocks + Fresh(ptrs[..last]), Block(ptrs[last], false), x);
      assert blocks + Fresh(ptrs) == blocks + Fresh(ptrs[..last]) + [Block(ptrs[last], false)];
      assert ptrs == ptrs[..last] + [ptrs[last]];
    }
  }

  lemma WantedIs(p: Pool, count: nat)
    requires |p.blocks| <= p.maxBlocks
    ensures |p.blocks| + Wanted(p, count) <= p.maxBlocks
    ensures |p.blocks| + count < TWO_64 ==>
              Wanted(p, count) == if count < p.maxBlocks - |p.blocks| then count else p.maxBlocks - |p.blocks|
  {
  }

  /** `preallocate` adds free blocks behind the others, as many as asked for unless the limit or the
      allocator stops it, and leaves every buffer in use as it is. */
  lemma PreallocateEffect(p: Pool, count: nat, allocs: seq<nat>)
    requires Sound(p) && Distinct(allocs) && forall i :: 0 <= i < |allocs| ==> At(p.blocks, allocs[i]) == 0
    ensures var q := Preallocate(p, count, allocs);
            && Sound(q) && Used(q.blocks) == Used(p.blocks)
            && (forall x :: InUseAt(q.blocks, x) == InUseAt(p.blocks, x))
            && p.blocks <= q.blocks
            && (forall i :: |p.blocks| <= i < |q.blocks| ==> q.blocks[i] == Block(allocs[i - |p.blocks|], false))
            && (|p.blocks| + count < TWO_64 ==>
                  var n := |q.blocks| - |p.blocks|;
                  && n <= count && n <= |allocs| && n <= p.maxBlocks - |p.blocks|
                  && (n == count || n == |allocs| || n == p.maxBlocks - |p.blocks|))
  {
    hide Used, At, InUseAt;
    var q := Preallocate(p, count, allocs);
    WantedIs(p, count);
    var got := allocs[..|q.blocks| - |p.blocks|];
    assert q.blocks == p.blocks + Fresh(got);
    forall x
      ensures At(q.blocks, x) <= 1 && InUseAt(q.blocks, x) == InUseAt(p.blocks, x) && Used(q.blocks) == Used(p.blocks)
    {
      FreshBlocks(p.blocks, got, x);
    }
    assert At(q.blocks, 0) <= 1;
  }

  lemma {:induction false} InUseOnlyCounts(blocks: seq<Block>, x: nat)
    ensures var r := InUseOnly(blocks);
            Used(r) == |r| == Used(blocks) && InUseAt(r, x) == InUseAt(blocks, x) && At(r, x) <= At(blocks, x)
  {
    if blocks != [] {
      var last := |blocks| - 1;
      InUseOnlyCounts(blocks[..last], x);
      BlockAppend(InUseOnly(blocks[..last]), blocks[last], x);
      assert InUseOnly(blocks[..last]) + [] == InUseOnly(blocks[..last]);
    }
  }

  /** `clear` keeps exactly the buffers in use, and its recount makes the counter right again even
      if it was wrong. */
  lemma ClearEffect(p: Pool)
    requires |p.blocks| <= p.maxBlocks < TWO_64 && forall x :: At(p.blocks, x) <= 1
    ensures var q := Clear(p);
            && Sound(q) && q.counter == |q.blocks| == Used(p.blocks)
            && forall x :: InUseAt(q.blocks, x) == InUseAt(p.blocks, x)
  {
    hide Used, At, InUseAt, InUseOnly;
    var q := Clear(p);
    forall x
      ensures At(q.blocks, x) <= 1 && InUseAt(q.blocks, x) == InUseAt(p.blocks, x)
      ensures Used(q.blocks) == |q.blocks| == Used(p.blocks)
    {
      InUseOnlyCounts(p.blocks, x);
    }
    assert At(q.blocks, 0) <= 1;
    UsedBounds(p.blocks);
  }

  // ---------------------------------------------------------------- whole runs

  datatype Call =
    | Get(alloc: Option<nat>)
    | Put(ptr: nat)
    | Grow(count: nat, allocs: seq<nat>)
    | Trim

  /** The allocator gives addresses no block has, and callers release what they hold. */
  ghost predicate Proper(p: Pool, c: Call) {
    match c
    case Get(alloc) => alloc.Some? ==> At(p.blocks, alloc.value) == 0
    case Put(ptr) => InUseAt(p.blocks, ptr) > 0
    case Grow(_, allocs) => Distinct(allocs) && forall i :: 0 <= i < |allocs| ==> At(p.blocks, allocs[i]) == 0
    case Trim => true
  }

  function Apply(p: Pool, c: Call): Pool {
    match c
    case Get(alloc) => Acquire(p, alloc).0
    case Put(ptr) => Release(p, ptr)
    case Grow(count, allocs) => Preallocate(p, count, allocs)
    case Trim => Clear(p)
  }

  ghost function Run(maxBlocks: nat, calls: seq<Call>): Pool
    decreases |calls|
  {
    if calls == [] then Init(maxBlocks)
    else
      var p, c := Run(maxBlocks, calls[..|calls| - 1]), calls[|calls| - 1];
      if Proper(p, c) then Apply(p, c) else p
  }

  /** In every run the counter is the number of blocks in use, no address occurs twice, and the pool
      stays within its limit. */
  lemma {:induction false} RunIsSound(maxBlocks: nat, calls: seq<Call>)
    requires maxBlocks < TWO_64
    ensures Sound(Run(maxBlocks, calls)) && Run(maxBlocks, calls).maxBlocks == maxBlocks
    decreases |calls|
  {
    hide Sound, Acquire, Release, Preallocate, Clear;
    if calls == [] {
      InitIsSound(maxBlocks);
    } else {
      var p, c := Run(maxBlocks, calls[..|calls| - 1]), calls[|calls| - 1];
      RunIsSound(maxBlocks, calls[..|calls| - 1]);
      if Proper(p, c) { ProperKeepsSound(p, c); }
    }
  }

  lemma InitIsSound(maxBlocks: nat)
    requires maxBlocks < TWO_64
    ensures Sound(Init(maxBlocks))
  {
  }

  lemma ProperKeepsSound(p: Pool, c: Call)
    requires Sound(p) && Proper(p, c)
    ensures Sound(Apply(p, c)) && Apply(p, c).maxBlocks == p.maxBlocks
  {
    hide Acquire, Release, Used, InUseAt;
    match c
    case Get(alloc) => AcquireEffect(p, alloc);
    case Put(ptr) => ReleaseEffect(p, ptr);
    case Grow(count, allocs) => PreallocateEffect(p, count, allocs);
    case Trim => ClearEffect(p);
  }

  lemma NothingWanted(p: Pool)
    ensures Wanted(p, 0) == 0
  {
  }

  // ---------------------------------------------------------------- the class

  class MemoryPool {
    var blocks: seq<Block>
    var maxBlocks: nat
    var allocatedCount: nat

    ghost function View(): Pool
      reads this
    {
      Pool(blocks, maxBlocks, allocatedCount)
    }

    constructor (maxBlocks: nat)
      ensures View() == Init(maxBlocks)
    {
      blocks, this.maxBlocks, allocatedCount := [], maxBlocks, 0;
    }

    method AcquireBlock(alloc: Option<nat>) returns (r: Acquired)
      modifies this
      ensures (View(), r) == Acquire(old(View()), alloc)
    {
      var i := 0;
      while i < |blocks|
        invariant i <= |blocks|
        invariant View() == old(View())
        invariant forall j :: 0 <= j < i ==> blocks[j].inUse
      {
        if !blocks[i].inUse {
          assert FirstFree(blocks) == i;
          r := Acquired(blocks[i].ptr);
          blocks := blocks[i := blocks[i].(inUse := true)];
          allocatedCount := allocatedCount + 1;
          return;
        }
        i := i + 1;
      }
      assert FirstFree(blocks) == |blocks|;
      if |blocks| < maxBlocks {
        if alloc.None? {
          return AllocationFailed;
        }
        blocks := blocks + [Block(alloc.value, true)];
        allocatedCount := allocatedCount + 1;
        return Acquired(alloc.value);
      }
      r := Exhausted;
    }

    method ReleaseBlock(ptr: nat)
      modifies this
      ensures View() == Release(old(View()), ptr)
    {
      var i := 0;
      while i < |blocks|
        invariant i <= |blocks|
        invariant View() == old(View())
        invariant forall j :: 0 <= j < i ==> blocks[j].ptr != ptr
      {
        if blocks[i].ptr == ptr {
          assert IndexOf(blocks, ptr) == i;
          blocks := blocks[i := blocks[i].(inUse := false)];
          allocatedCount := (allocatedCount - 1) % TWO_64;
          return;
        }
        i := i + 1;
      }
      assert IndexOf(blocks, ptr) == |blocks|;
    }

    method PreallocateBlocks(count: nat, allocs: seq<nat>)
      modifies this
      ensures View() == Preallocate(old(View()), count, allocs)
    {
      hide Sum64;
      if count == 0 {
        NothingWanted(View());
        assert Preallocate(View(), 0, allocs).blocks == blocks + [];
        return;
      }
      var currentSize := |blocks|;
      var sum := Sum64(currentSize, count);
      var targetSize := if sum < maxBlocks then sum else maxBlocks;
      var i := currentSize;
      while i < targetSize && i - currentSize < |allocs|
        invariant currentSize <= i && (i == currentSize || i <= targetSize) && i - currentSize <= |allocs|
        invariant View() == old(View()).(blocks := old(blocks) + Fresh(allocs[..i - currentSize]))
      {
        var k := i - currentSize;
        blocks := blocks + [Block(allocs[k], false)];
        i := i + 1;
        assert Fresh(allocs[..k]) + [Block(allocs[k], false)] == Fresh(allocs[..k + 1]);
      }
      assert allocs[..|allocs|] == allocs;
    }

    /** `clear`, with the count and the `remove_if` as the two passes they are. */
    method ClearBlocks()
      modifies this
      ensures View() == Clear(old(View()))
    {
      var usedCount, i := 0, 0;
      while i < |blocks|
        invariant i <= |blocks| && usedCount == Used(blocks[..i]) && View() == old(View())
      {
        assert blocks[..i + 1][..i] == blocks[..i];
        usedCount := usedCount + One(blocks[i].inUse);
        i := i + 1;
      }
      assert blocks[..|blocks|] == blocks;
      allocatedCount := usedCount;
      var kept: seq<Block> := [];
      i := 0;
      while i < |blocks|
        invariant i <= |blocks| && kept == InUseOnly(blocks[..i])
        invariant blocks == old(blocks) && maxBlocks == old(maxBlocks) && allocatedCount == usedCount
      {
        assert blocks[..i + 1][..i] == blocks[..i];
        if blocks[i].inUse {
          kept := kept + [blocks[i]];
        }
        i := i + 1;
      }
      assert blocks[..|blocks|] == blocks;
      blocks := kept;
    }
  }
}
