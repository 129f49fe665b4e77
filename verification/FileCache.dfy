/** The file cache of AsyncFileReader in async_io.cpp.

    Files are a map from path to contents that does not change.  The clock is a parameter of each
    locked section.  Several callers of `readSync` interleave between the locked sections, so a run
    is any sequence of locked sections. */
module FileCache {

  import opened Common

  type Bytes = seq<bv8>
  type Files = map<string, Bytes>

  datatype Entry = Entry(path: string, data: Bytes, lastAccess: nat, accessCount: nat)

  /** The order of eviction: fewest accesses first, then the longest unused. */
  predicate Before(a: Entry, b: Entry) {
    if a.accessCount != b.accessCount then a.accessCount < b.accessCount else a.lastAccess < b.lastAccess
  }

  function Total(cache: seq<Entry>): nat {
    if cache == [] then 0 else Total(cache[..|cache| - 1]) + |cache[|cache| - 1].data|
  }

  /** The first entry for the path. */
  function Lookup(cache: seq<Entry>, path: string): (i: nat)
    ensures i <= |cache|
    ensures i < |cache| ==> cache[i].path == path
    ensures forall j :: 0 <= j < i ==> cache[j].path != path
  {
    if cache == [] || cache[0].path == path then 0 else 1 + Lookup(cache[1..], path)
  }

  function Touched(cache: seq<Entry>, path: string, now: nat): seq<Entry> {
    var i := Lookup(cache, path);
    if i == |cache| then cache
    else cache[i := cache[i].(lastAccess := now, accessCount := cache[i].accessCount + 1)]
  }

  /** `std::min_element`: the first entry that no other is before. */
  function Oldest(cache: seq<Entry>): (i: nat)
    requires cache != []
    ensures i < |cache|
    ensures forall j :: 0 <= j < |cache| ==> !Before(cache[j], cache[i])
    ensures forall j :: 0 <= j < i ==> Before(cache[i], cache[j])
  {
    if |cache| == 1 then 0
    else
      var i := Oldest(cache[..|cache| - 1]);
      if Before(cache[|cache| - 1], cache[i]) then |cache| - 1 else i
  }

  function Without(cache: seq<Entry>, i: nat): (rest: seq<Entry>)
    requires i < |cache|
    ensures |rest| == |cache| - 1
  {
    cache[..i] + cache[i + 1..]
  }

  /** What is kept when `size` more bytes must fit under `limit`, and what is evicted, in order. */
  function Evict(cache: seq<Entry>, size: nat, limit: nat): (seq<Entry>, seq<Entry>)
    decreases |cache|
  {
    if Total(cache) + size <= limit || cache == [] then (cache, [])
    else
      var i := Oldest(cache);
      var (kept, out) := Evict(Without(cache, i), size, limit);
      (kept, [cache[i]] + out)
  }

  function Inserted(cache: seq<Entry>, path: string, data: Bytes, limit: nat, now: nat): seq<Entry> {
    Evict(cache, |data|, limit).0 + [Entry(path, data, now, 1)]
  }

  // ---------------------------------------------------------------- sizes and eviction

  lemma {:induction false} TotalAppend(a: seq<Entry>, b: seq<Entry>)
    ensures Total(a + b) == Total(a) + Total(b)
    decreases |b|
  {
    if b == [] {
      assert a + b == a;
    } else {
      assert (a + b)[..|a + b| - 1] == a + b[..|b| - 1];
      TotalAppend(a, b[..|b| - 1]);
    }
  }

  lemma TotalWithout(cache: seq<Entry>, i: nat)
    requires i < |cache|
    ensures Total(cache) == Total(Without(cache, i)) + |cache[i].data|
  {
    var a, e, b := cache[..i], cache[i], cache[i + 1..];
    assert cache == a + [e] + b;
    TotalAppend(a + [e], b);
    TotalAppend(a, [e]);
    TotalAppend(a, b);
    assert [e][..0] == [];
  }

  /** After an insert the cache is within its limit exactly when the file itself is. */
  lemma {:induction false} EvictFits(cache: seq<Entry>, size: nat, limit: nat)
    ensures var (kept, out) := Evict(cache, size, limit);
            if size <= limit then Total(kept) + size <= limit else kept == []
    decreases |cache|
  {
    if cache != [] && Total(cache) + size > limit {
      EvictFits(Without(cache, Oldest(cache)), size, limit);
    }
  }

  lemma InsertFitsIff(cache: seq<Entry>, path: string, data: Bytes, limit: nat, now: nat)
    ensures Total(Inserted(cache, path, data, limit, now)) <= limit <==> |data| <= limit
  {
    var kept := Evict(cache, |data|, limit).0;
    EvictFits(cache, |data|, limit);
    TotalAppend(kept, [Entry(path, data, now, 1)]);
    assert [Entry(path, data, now, 1)][..0] == [];
  }

  /** Nothing kept is before anything evicted, and the evicted come out in order. */
  ghost predicate InOrder(kept: seq<Entry>, out: seq<Entry>) {
    && (forall k, o :: k in kept && o in out ==> !Before(k, o))
    && (forall i, j :: 0 <= i < j < |out| ==> !Before(out[j], out[i]))
  }

  lemma {:induction false} EvictSplits(cache: seq<Entry>, size: nat, limit: nat)
    ensures multiset(Evict(cache, size, limit).0) + multiset(Evict(cache, size, limit).1) == multiset(cache)
    decreases |cache|
  {
    hide Before, Without, Total;
    if cache != [] && Total(cache) + size > limit {
      var i := Oldest(cache);
      var rest := Without(cache, i);
      EvictSplits(rest, size, limit);
      OldestLeaves(cache);
      var (kept, out) := Evict(rest, size, limit);
      PutBack(kept, out, rest, cache, cache[i]);
    }
  }

  lemma {:induction false} EvictInOrder(cache: seq<Entry>, size: nat, limit: nat)
    ensures InOrder(Evict(cache, size, limit).0, Evict(cache, size, limit).1)
    decreases |cache|
  {
    hide Before, Without, InOrder, Total;
    if cache == [] || Total(cache) + size <= limit {
      InOrderNone(cache);
    } else {
      var i := Oldest(cache);
      var rest := Without(cache, i);
      EvictInOrder(rest, size, limit);
      EvictSplits(rest, size, limit);
      OldestLeaves(cache);
      var (kept, out) := Evict(rest, size, limit);
      NoneBefore(kept, out, rest, cache[i]);
      OldestFirst(kept, out, cache[i]);
    }
  }

  /** The last entry evicted had to go. */
  lemma {:induction false} EvictsNoMore(cache: seq<Entry>, size: nat, limit: nat)
    ensures var (kept, out) := Evict(cache, size, limit);
            && (out == [] ==> kept == cache)
            && (out != [] ==> Total(kept) + |out[|out| - 1].data| + size > limit)
    decreases |cache|
  {
    hide Before, Without, Total;
    if cache != [] && Total(cache) + size > limit {
      var i := Oldest(cache);
      EvictsNoMore(Without(cache, i), size, limit);
      TotalWithout(cache, i);
      LastAfter(cache[i], Evict(Without(cache, i), size, limit).1);
    }
  }

  lemma LastAfter(e: Entry, out: seq<Entry>)
    ensures ([e] + out)[|out|] == if out == [] then e else out[|out| - 1]
  {
  }

  /** What goes was used less often than what stays, or as often and not more recently. */
  predicate GoesBefore(o: Entry, k: Entry) {
    o.accessCount < k.accessCount || (o.accessCount == k.accessCount && o.lastAccess <= k.lastAccess)
  }

  lemma BeforeIs(a: Entry, b: Entry)
    ensures !Before(b, a) <==> GoesBefore(a, b)
  {
  }

  /** Each insert evicts the shortest sufficient prefix of the eviction order: what goes and what
      stays is the old cache; whatever goes was used less often than whatever stays, or as often and
      not more recently, and the evicted go in the same order; and putting the last of them back would
      not fit. */
  lemma EvictsShortestPrefix(cache: seq<Entry>, size: nat, limit: nat)
    ensures var (kept, out) := Evict(cache, size, limit);
            && multiset(kept) + multiset(out) == multiset(cache)
            && (forall k, o :: k in kept && o in out ==> GoesBefore(o, k))
            && (forall i, j :: 0 <= i < j < |out| ==> GoesBefore(out[i], out[j]))
            && (out == [] ==> kept == cache)
            && (out != [] ==> Total(kept) + |out[|out| - 1].data| + size > limit)
            && (size <= limit ==> Total(kept) + size <= limit)
  {
    hide Evict, Before, GoesBefore, Total;
    EvictSplits(cache, size, limit);
    EvictInOrder(cache, size, limit);
    EvictsNoMore(cache, size, limit);
    EvictFits(cache, size, limit);
    forall a, b ensures !Before(b, a) <==> GoesBefore(a, b) { BeforeIs(a, b); }
  }

  lemma NoneBefore(kept: seq<Entry>, out: seq<Entry>, rest: seq<Entry>, e: Entry)
    requires multiset(kept) + multiset(out) == multiset(rest)
    requires forall x :: x in multiset(rest) ==> !Before(x, e)
    ensures forall x :: x in kept || x in out ==> !Before(x, e)
  {
    hide Before;
    forall x | x in kept || x in out ensures !Before(x, e) {
      assert x in multiset(kept) + multiset(out);
    }
  }

  lemma PutBack(kept: seq<Entry>, out: seq<Entry>, rest: seq<Entry>, cache: seq<Entry>, e: Entry)
    requires multiset(kept) + multiset(out) == multiset(rest)
    requires multiset(rest) + multiset{e} == multiset(cache)
    ensures multiset(kept) + multiset([e] + out) == multiset(cache)
  {
    assert multiset([e] + out) == multiset{e} + multiset(out);
  }

  lemma InOrderNone(kept: seq<Entry>)
    ensures InOrder(kept, [])
  {
  }

  lemma OldestLeaves(cache: seq<Entry>)
    requires cache != []
    ensures var i := Oldest(cache);
            && multiset(Without(cache, i)) + multiset{cache[i]} == multiset(cache)
            && forall x :: x in multiset(Without(cache, i)) ==> !Before(x, cache[i])
  {
    var i := Oldest(cache);
    assert cache == cache[..i] + [cache[i]] + cache[i + 1..];
    forall x | x in multiset(Without(cache, i)) ensures !Before(x, cache[i]) {
      assert x in cache;
    }
  }

  lemma OldestFirst(kept: seq<Entry>, out: seq<Entry>, e: Entry)
    requires InOrder(kept, out)
    requires forall x :: x in kept || x in out ==> !Before(x, e)
    ensures InOrder(kept, [e] + out)
  {
    var o := [e] + out;
    forall i, j | 0 <= i < j < |o| ensures !Before(o[j], o[i]) {
      assert o[j] == out[j - 1];
    }
  }

  // ---------------------------------------------------------------- what readers get

  /** Every entry holds the contents of its file. */
  ghost predicate Faithful(cache: seq<Entry>, files: Files) {
    forall e :: e in cache ==> e.path in files && e.data == files[e.path]
  }

  /** A locked section of some caller of `readSync`, or `clearCache`. */
  datatype Section =
    | Look(path: string, now: nat)
    | Insert(path: string, now: nat)  // by a caller that missed, and has read the file since
    | Clear

  function Step(cache: seq<Entry>, files: Files, limit: nat, fileLimit: nat, a: Section): seq<Entry> {
    match a
    case Look(path, now) => Touched(cache, path, now)
    case Insert(path, now) =>
      if path in files && |files[path]| < fileLimit then Inserted(cache, path, files[path], limit, now) else cache
    case Clear => []
  }

  function Run(files: Files, limit: nat, fileLimit: nat, sections: seq<Section>): seq<Entry>
    decreases |sections|
  {
    if sections == [] then []
    else Step(Run(files, limit, fileLimit, sections[..|sections| - 1]), files, limit, fileLimit,
              sections[|sections| - 1])
  }

  lemma {:induction false} EvictKeepsOnly(cache: seq<Entry>, size: nat, limit: nat)
    ensures forall e :: e in Evict(cache, size, limit).0 ==> e in cache
    decreases |cache|
  {
    if cache != [] && Total(cache) + size > limit {
      EvictKeepsOnly(Without(cache, Oldest(cache)), size, limit);
    }
  }

  lemma TouchKeepsFaithful(cache: seq<Entry>, files: Files, path: string, now: nat)
    requires Faithful(cache, files)
    ensures Faithful(Touched(cache, path, now), files) && Total(Touched(cache, path, now)) == Total(cache)
  {
    var i := Lookup(cache, path);
    if i < |cache| {
      var t := Touched(cache, path, now);
      assert cache[i] in cache;
      TotalWithout(cache, i);
      TotalWithout(t, i);
      assert Without(t, i) == Without(cache, i);
    }
  }

  lemma {:induction false} RunKeepsFaithful(files: Files, limit: nat, fileLimit: nat, sections: seq<Section>)
    ensures Faithful(Run(files, limit, fileLimit, sections), files)
    ensures fileLimit <= limit ==> Total(Run(files, limit, fileLimit, sections)) <= limit
    decreases |sections|
  {
    if sections != [] {
      var init, a := sections[..|sections| - 1], sections[|sections| - 1];
      RunKeepsFaithful(files, limit, fileLimit, init);
      StepKeepsFaithful(Run(files, limit, fileLimit, init), files, limit, fileLimit, a);
    }
  }

  lemma StepKeepsFaithful(cache: seq<Entry>, files: Files, limit: nat, fileLimit: nat, a: Section)
    requires Faithful(cache, files) && (fileLimit <= limit ==> Total(cache) <= limit)
    ensures Faithful(Step(cache, files, limit, fileLimit, a), files)
    ensures fileLimit <= limit ==> Total(Step(cache, files, limit, fileLimit, a)) <= limit
  {
    match a
    case Look(path, now) => TouchKeepsFaithful(cache, files, path, now);
    case Insert(path, now) =>
      if path in files && |files[path]| < fileLimit {
        hide Evict, Total;
        EvictKeepsOnly(cache, |files[path]|, limit);
        InsertFitsIff(cache, path, files[path], limit, now);
      }
    case Clear =>
  }

  /** A lookup of each of the paths, at the times given. */
  datatype Use = Use(path: string, now: nat)

  function Looks(uses: seq<Use>): seq<Section> {
    seq(|uses|, i requires 0 <= i < |uses| => Look(uses[i].path, uses[i].now))
  }

  function Hits(uses: seq<Use>, path: string): nat {
    if uses == [] then 0 else Hits(uses[..|uses| - 1], path) + One(uses[|uses| - 1].path == path)
  }

  /** When `path` was last used, given that it was inserted at `inserted`. */
  function LastUse(uses: seq<Use>, path: string, inserted: nat): nat {
    if uses == [] then inserted
    else if uses[|uses| - 1].path == path then uses[|uses| - 1].now
    else LastUse(uses[..|uses| - 1], path, inserted)
  }

  lemma RunAppend(files: Files, limit: nat, fileLimit: nat, sections: seq<Section>, a: Section)
    ensures Run(files, limit, fileLimit, sections + [a])
         == Step(Run(files, limit, fileLimit, sections), files, limit, fileLimit, a)
  {
    assert (sections + [a])[..|sections|] == sections;
  }

  /** What the order of eviction goes by is kept as it should be: an entry counts its insertion and each
      lookup of its path since, and has the time of the last of them. */
  lemma {:induction false} UsesAreCounted(
    files: Files, limit: nat, fileLimit: nat, sections: seq<Section>, path: string, inserted: nat, uses: seq<Use>)
    requires path in files && |files[path]| < fileLimit
    requires var before := Run(files, limit, fileLimit, sections); Lookup(before, path) == |before|
    ensures var cache := Run(files, limit, fileLimit, sections + [Insert(path, inserted)] + Looks(uses));
            var i := Lookup(cache, path);
            i < |cache| && cache[i] == Entry(path, files[path], LastUse(uses, path, inserted), 1 + Hits(uses, path))
    decreases |uses|
  {
    hide Step;
    var since := sections + [Insert(path, inserted)];
    if uses == [] {
      assert since + Looks(uses) == since;
      InsertAdds(Run(files, limit, fileLimit, sections), files, limit, fileLimit, path, inserted);
      RunAppend(files, limit, fileLimit, sections, Insert(path, inserted));
    } else {
      var init, u := uses[..|uses| - 1], uses[|uses| - 1];
      UsesAreCounted(files, limit, fileLimit, sections, path, inserted, init);
      assert since + Looks(uses) == since + Looks(init) + [Look(u.path, u.now)];
      RunAppend(files, limit, fileLimit, since + Looks(init), Look(u.path, u.now));
      LookTouches(Run(files, limit, fileLimit, since + Looks(init)), files, limit, fileLimit, u, path);
    }
  }

  lemma InsertAdds(cache: seq<Entry>, files: Files, limit: nat, fileLimit: nat, path: string, now: nat)
    requires path in files && |files[path]| < fileLimit && Lookup(cache, path) == |cache|
    ensures var after := Step(cache, files, limit, fileLimit, Insert(path, now));
            var i := Lookup(after, path);
            i < |after| && after[i] == Entry(path, files[path], now, 1)
  {
    hide Evict, Lookup;
    EvictKeepsOnly(cache, |files[path]|, limit);
    var kept := Evict(cache, |files[path]|, limit).0;
    var after := Step(cache, files, limit, fileLimit, Insert(path, now));
    assert after == kept + [Entry(path, files[path], now, 1)];
    forall j | 0 <= j < |kept| ensures kept[j].path != path { assert kept[j] in kept; }
    LookupIs(after, path, |kept|);
  }

  lemma LookupIs(cache: seq<Entry>, path: string, i: nat)
    requires i < |cache| && cache[i].path == path && forall j :: 0 <= j < i ==> cache[j].path != path
    ensures Lookup(cache, path) == i
  {
    var j := Lookup(cache, path);
    assert j < |cache| ==> cache[j].path == path;
  }

  lemma LookTouches(cache: seq<Entry>, files: Files, limit: nat, fileLimit: nat, u: Use, path: string)
    requires Lookup(cache, path) < |cache|
    ensures var after := Step(cache, files, limit, fileLimit, Look(u.path, u.now));
            var i := Lookup(cache, path);
            && Lookup(after, path) == i < |after| == |cache|
            && after[i] == if u.path != path then cache[i]
                           else cache[i].(lastAccess := u.now, accessCount := cache[i].accessCount + 1)
  {
    hide Lookup;
    var i := Lookup(cache, path);
    var after := Step(cache, files, limit, fileLimit, Look(u.path, u.now));
    LookupIs(after, path, i);
  }

  /** In every interleaving of lookups, inserts and clears a hit returns the contents of the file,
      and the cached bytes stay within the limit when the file limit does not exceed it. */
  lemma HitsAreFaithful(files: Files, limit: nat, fileLimit: nat, sections: seq<Section>, path: string)
    ensures var cache := Run(files, limit, fileLimit, sections);
            && (Lookup(cache, path) < |cache| ==>
                  path in files && cache[Lookup(cache, path)].data == files[path])
            && (fileLimit <= limit ==> Total(cache) <= limit)
  {
    RunKeepsFaithful(files, limit, fileLimit, sections);
    var cache := Run(files, limit, fileLimit, sections);
    assert Lookup(cache, path) < |cache| ==> cache[Lookup(cache, path)] in cache;
  }

  /** `readFile` moves its data into the result before it caches it, so what it caches from offset
      zero is the empty string. */
  function InsertedByReadFile(cache: seq<Entry>, path: string, limit: nat, fileLimit: nat, now: nat): seq<Entry> {
    if 0 < fileLimit then Inserted(cache, path, [], limit, now) else cache
  }

  /** So a miss of `readFile` keeps the cache faithful exactly when the file is empty, or nothing is
      ever cached. */
  lemma ReadFilePoisonsIff(cache: seq<Entry>, files: Files, path: string, limit: nat, fileLimit: nat, now: nat)
    requires Faithful(cache, files) && path in files
    ensures Faithful(InsertedByReadFile(cache, path, limit, fileLimit, now), files)
       <==> files[path] == [] || fileLimit == 0
  {
    EvictKeepsOnly(cache, 0, limit);
    if 0 < fileLimit {
      var e := Entry(path, [], now, 1);
      var after := Inserted(cache, path, [], limit, now);
      assert after[|after| - 1] == e && e in after;
    }
  }

  // ---------------------------------------------------------------- the class

  class AsyncFileReader {
    var cache: seq<Entry>
    const maxCacheSize: nat
    const maxCacheFileSize: nat

    constructor (maxCacheSize: nat, maxCacheFileSize: nat)
      ensures cache == [] && this.maxCacheSize == maxCacheSize && this.maxCacheFileSize == maxCacheFileSize
    {
      cache := [];
      this.maxCacheSize := maxCacheSize;
      this.maxCacheFileSize := maxCacheFileSize;
    }

    /** `tryGetFromCache` */
    method TryGetFromCache(path: string, now: nat) returns (data: Option<Bytes>)
      modifies this`cache
      ensures cache == Touched(old(cache), path, now)
      ensures var i := Lookup(old(cache), path);
              data == if i < |old(cache)| then Some(old(cache)[i].data) else None
    {
      var i := 0;
      while i < |cache|
        invariant i <= |cache| && cache == old(cache)
        invariant Lookup(cache, path) == i + Lookup(cache[i..], path)
      {
        if cache[i].path == path {
          cache := cache[i := cache[i].(lastAccess := now, accessCount := cache[i].accessCount + 1)];
          return Some(cache[i].data);
        }
        i := i + 1;
      }
      data := None;
    }

    /** `addToCache` */
    method AddToCache(path: string, data: Bytes, now: nat)
      modifies this`cache
      ensures cache == Inserted(old(cache), path, data, maxCacheSize, now)
    {
      hide Before, Oldest;
      var newSize := |data|;
      for i := 0 to |cache|
        invariant newSize == |data| + Total(cache[..i])
      {
        assert cache[..i + 1][..i] == cache[..i];
        newSize := newSize + |cache[i].data|;
      }
      assert cache[..|cache|] == cache;
      while newSize > maxCacheSize && cache != []
        invariant newSize == |data| + Total(cache)
        invariant Evict(cache, |data|, maxCacheSize).0 == Evict(old(cache), |data|, maxCacheSize).0
        decreases |cache|
      {
        var oldest := Oldest(cache);
        TotalWithout(cache, oldest);
        newSize := newSize - |cache[oldest].data|;
        cache := cache[..oldest] + cache[oldest + 1..];
      }
      cache := cache + [Entry(path, data, now, 1)];
    }

    /** `readSync` when no other caller comes between; None is "Failed to open file". */
    method ReadSync(files: Files, path: string, atLookup: nat, atInsert: nat) returns (r: Option<Bytes>)
      requires Faithful(cache, files)
      modifies this`cache
      ensures Faithful(cache, files)
      ensures r == if path in files then Some(files[path]) else None
      ensures cache == var looked := Step(old(cache), files, maxCacheSize, maxCacheFileSize, Look(path, atLookup));
                       if Lookup(old(cache), path) < |old(cache)| then looked
                       else Step(looked, files, maxCacheSize, maxCacheFileSize, Insert(path, atInsert))
      ensures Lookup(old(cache), path) == |old(cache)| && path in files ==>
                if |files[path]| < maxCacheFileSize then
                  cache != [] && cache[|cache| - 1] == Entry(path, files[path], atInsert, 1)
                else cache == old(cache)
    {
      var i := Lookup(cache, path);
      assert i < |cache| ==> cache[i] in cache;
      TouchKeepsFaithful(cache, files, path, atLookup);
      var data := TryGetFromCache(path, atLookup);
      if data.Some? {
        return data;
      }
      if path !in files {
        return None;
      }
      var contents := files[path];
      if |contents| < maxCacheFileSize {
        EvictKeepsOnly(cache, |contents|, maxCacheSize);
        AddToCache(path, contents, atInsert);
      }
      r := Some(contents);
    }

    /** `clearCache` */
    method ClearCache()
      modifies this`cache
      ensures cache == []
    {
      cache := [];
    }

    /** `getCacheSize` */
    method GetCacheSize() returns (total: nat)
      ensures total == Total(cache)
    {
      total := 0;
      for i := 0 to |cache|
        invariant total == Total(cache[..i])
      {
        assert cache[..i + 1][..i] == cache[..i];
        total := total + |cache[i].data|;
      }
      assert cache[..|cache|] == cache;
    }
  }
}
