/** What an eviction pass over a cache index does, as a relation, and what follows from it. */
module Eviction {
  import opened Common
  import opened Manifests
  import opened MapSums

  datatype CacheEntry = CacheEntry(size: nat, lastAccess: int)

  type Entries = map<Hash, CacheEntry>

  ghost function Sizes(entries: Entries): map<Hash, nat> {
    map h | h in entries :: entries[h].size
  }

  ghost function TotalSize(entries: Entries): nat {
    Sum(Sizes(entries))
  }

  /** The unpinned entry that was used longest ago. */
  predicate Oldest(entries: Entries, pinned: set<Hash>, hash: Hash) {
    && hash in entries && hash !in pinned
    && forall h | h in entries && h !in pinned :: entries[hash].lastAccess <= entries[h].lastAccess
  }

  /**
   * A pass that removed exactly these victims, one by one: each while over the limit, each the oldest of its moment.
   */
  ghost predicate Pass(before: Entries, pinned: set<Hash>, limit: nat, victims: seq<Hash>, after: Entries)
    decreases |victims|
  {
    if victims == [] then
      after == before && (TotalSize(before) <= limit || before.Keys <= pinned)
    else
      && TotalSize(before) > limit && Oldest(before, pinned, victims[0])
      && Pass(before - {victims[0]}, pinned, limit, victims[1..], after)
  }

  lemma SizesRemove(entries: Entries, hash: Hash)
    requires hash in entries
    ensures TotalSize(entries) == entries[hash].size + TotalSize(entries - {hash})
  {
    SumRemove(Sizes(entries), hash);
    assert Sizes(entries - {hash}) == Sizes(entries) - {hash};
  }

  lemma SizesInsert(entries: Entries, hash: Hash, entry: CacheEntry)
    ensures TotalSize(entries[hash := entry]) ==
              TotalSize(entries) + entry.size - (if hash in entries then entries[hash].size else 0)
  {
    SumInsert(Sizes(entries), hash, entry.size);
    assert Sizes(entries[hash := entry]) == Sizes(entries)[hash := entry.size];
  }

  /** One more eviction at the end of a pass in progress. */
  ghost predicate PassSoFar(before: Entries, pinned: set<Hash>, limit: nat, victims: seq<Hash>, now: Entries)
    decreases |victims|
  {
    if victims == [] then now == before
    else
      && TotalSize(before) > limit && Oldest(before, pinned, victims[0])
      && PassSoFar(before - {victims[0]}, pinned, limit, victims[1..], now)
  }

  lemma {:induction false} PassGrows(before: Entries, pinned: set<Hash>, limit: nat, victims: seq<Hash>, now: Entries,
                                     hash: Hash)
    requires PassSoFar(before, pinned, limit, victims, now) && TotalSize(now) > limit && Oldest(now, pinned, hash)
    ensures PassSoFar(before, pinned, limit, victims + [hash], now - {hash})
    decreases |victims|
  {
    if victims == [] {
      assert [hash][1..] == [];
    } else {
      PassGrows(before - {victims[0]}, pinned, limit, victims[1..], now, hash);
      assert (victims + [hash])[1..] == victims[1..] + [hash];
    }
  }

  lemma {:induction false} PassEnds(before: Entries, pinned: set<Hash>, limit: nat, victims: seq<Hash>, now: Entries)
    requires PassSoFar(before, pinned, limit, victims, now) && (TotalSize(now) <= limit || now.Keys <= pinned)
    ensures Pass(before, pinned, limit, victims, now)
    decreases |victims|
  {
    if victims == [] {
    } else {
      PassEnds(before - {victims[0]}, pinned, limit, victims[1..], now);
    }
  }

  /** A pass removes its victims and nothing else, touches no pin, and ends within the limit or with pins only. */
  lemma {:induction false} PassResult(before: Entries, pinned: set<Hash>, limit: nat, victims: seq<Hash>,
                                      after: Entries)
    requires Pass(before, pinned, limit, victims, after)
    ensures after == before - Elements(victims) && Elements(victims) <= before.Keys && Elements(victims) !! pinned
    ensures TotalSize(after) <= limit || after.Keys <= pinned
    ensures TotalSize(before) <= limit ==> victims == []
    decreases |victims|
  {
    if victims == [] {
    } else {
      PassResult(before - {victims[0]}, pinned, limit, victims[1..], after);
      assert Elements(victims) == {victims[0]} + Elements(victims[1..]);
    }
  }

  /** Before each removal the cache was still over the limit. */
  lemma {:induction false} PassIsNeeded(before: Entries, pinned: set<Hash>, limit: nat, victims: seq<Hash>,
                                        after: Entries, k: nat)
    requires Pass(before, pinned, limit, victims, after) && k < |victims|
    ensures TotalSize(before - Elements(victims[..k])) > limit
    decreases |victims|
  {
    if k == 0 {
      assert before - Elements(victims[..0]) == before;
    } else {
      PassIsNeeded(before - {victims[0]}, pinned, limit, victims[1..], after, k - 1);
      assert Elements(victims[..k]) == {victims[0]} + Elements(victims[1..][..k - 1]);
      assert before - Elements(victims[..k]) == (before - {victims[0]}) - Elements(victims[1..][..k - 1]);
    }
  }

  /** Victims leave oldest first, and no unpinned survivor is older than any of them. */
  lemma {:induction false} PassIsOldestFirst(before: Entries, pinned: set<Hash>, limit: nat, victims: seq<Hash>,
                                             after: Entries)
    requires Pass(before, pinned, limit, victims, after)
    ensures forall v | v in victims :: v in before
    ensures forall i, j | 0 <= i < j < |victims| :: before[victims[i]].lastAccess <= before[victims[j]].lastAccess
    ensures forall v, h | v in victims && h in after && h !in pinned ::
              h in before && before[v].lastAccess <= before[h].lastAccess
    decreases |victims|
  {
    if victims == [] {
    } else {
      var oldest, others := victims[0], victims[1..];
      var rest := before - {oldest};
      PassIsOldestFirst(rest, pinned, limit, others, after);
      PassResult(before, pinned, limit, victims, after);
      PassResult(rest, pinned, limit, others, after);
      forall v | v in victims ensures v in before && before[oldest].lastAccess <= before[v].lastAccess {
        assert v in Elements(victims);
      }
      forall i, j | 0 <= i < j < |victims| ensures before[victims[i]].lastAccess <= before[victims[j]].lastAccess {
        assert victims[j] == others[j - 1] && (i > 0 ==> victims[i] == others[i - 1]);
        assert victims[j] in victims && others[j - 1] in others;
        assert i > 0 ==> victims[i] in victims && others[i - 1] in others;
      }
      forall v, h | v in victims && h in after && h !in pinned
        ensures h in before && before[v].lastAccess <= before[h].lastAccess
      {
        assert v == oldest || v in others;
      }
    }
  }

  /** The entry used last survives whenever it fits beside the pinned ones. */
  lemma {:induction false} NewestSurvives(before: Entries, pinned: set<Hash>, limit: nat, victims: seq<Hash>,
                                          after: Entries,
                                          newest: Hash)
    requires Pass(before, pinned, limit, victims, after) && newest in before
    requires forall h | h in before && h !in pinned && h != newest :: before[h].lastAccess < before[newest].lastAccess
    requires TotalSize(map h | h in before && (h in pinned || h == newest) :: before[h]) <= limit
    ensures newest in after
    decreases |victims|
  {
    if victims == [] {
    } else {
      var kept := map h | h in before && (h in pinned || h == newest) :: before[h];
      assert victims[0] == newest ==> before.Keys == kept.Keys;
      assert victims[0] == newest ==> before == kept;
      var rest := before - {victims[0]};
      assert kept == map h | h in rest && (h in pinned || h == newest) :: rest[h];
      NewestSurvives(rest, pinned, limit, victims[1..], after, newest);
    }
  }
}

/** The launcher's bounded chunk cache: an index over files named by digest, least recently used first out. */
module ChunkCache {
  import opened Common
  import opened Eviction
  import opened Manifests

  datatype CacheError = BadName | SourceMissing | HashMismatch

  class ChunkCache {
    const hash: Bytes -> Hash
    const maxBytes: nat

    var files: map<Hash, Bytes>
    var entries: Entries
    var pinned: set<Hash>
    var currentBytes: int

    /** The hashes of the leases that were not disposed yet. */
    ghost var leases: multiset<Hash>

    constructor (hash: Bytes -> Hash, maxBytes: nat, files: map<Hash, Bytes>)
      ensures this.hash == hash && this.maxBytes == maxBytes && this.files == files && entries == map[] && Valid()
      ensures pinned == {} && leases == multiset{}
    {
      this.hash, this.maxBytes, this.files, entries, pinned, currentBytes := hash, maxBytes, files, map[], {}, 0;
      leases := multiset{};
    }

    /** The byte counter is the sum of the indexed sizes. */
    ghost predicate Valid()
      reads this
    {
      currentBytes == TotalSize(entries)
    }

    /** The index describes the files. */
    ghost predicate Indexed()
      reads this
    {
      entries.Keys == files.Keys && forall h | h in files :: entries[h].size == |files[h]|
    }

    /** Every file holds what its name says. */
    ghost predicate Authentic()
      reads this
    {
      forall h | h in files :: hash(files[h]) == h
    }

    method Delete(name: Hash)
      requires Valid()
      modifies this`files, this`entries, this`currentBytes
      ensures Valid()
      ensures entries == old(entries) - {name} && files == old(files) - {name}
      ensures old(Indexed()) ==> Indexed()
      ensures old(Authentic()) ==> Authentic()
    {
      files := files - {name};
      if name in entries {
        SizesRemove(entries, name);
        currentBytes := currentBytes - entries[name].size;
      }
      assert name !in entries ==> entries - {name} == entries;
      entries := entries - {name};
    }

    /** Removes the oldest unpinned entries until the limit is met or only pinned ones are left. */
    method EvictIfNeeded() returns (ghost victims: seq<Hash>)
      requires Valid()
      modifies this`files, this`entries, this`currentBytes
      ensures Valid()
      ensures Pass(old(entries), pinned, maxBytes, victims, entries)
      ensures files == old(files) - Elements(victims)
      ensures old(Indexed()) ==> Indexed()
      ensures old(Authentic()) ==> Authentic()
    {
      hide TotalSize, Pass, PassSoFar, Oldest, ChunkCache.Valid, ChunkCache.Indexed, ChunkCache.Authentic;
      victims := [];
      NothingTaken(files);
      PassStarts(entries, pinned, maxBytes);
      while true
        invariant Valid() && PassSoFar(old(entries), pinned, maxBytes, victims, entries)
        invariant files == old(files) - Elements(victims)
        invariant (old(Indexed()) ==> Indexed()) && (old(Authentic()) ==> Authentic())
        decreases |entries|
      {
        var candidate := Candidate();
        if candidate.None? {
          PassEnds(old(entries), pinned, maxBytes, victims, entries);
          return;
        }
        PassGrows(old(entries), pinned, maxBytes, victims, entries, candidate.value);
        OldestIsThere(entries, pinned, candidate.value);
        OneMoreTaken(old(files), victims, candidate.value);
        victims := victims + [candidate.value];
        Delete(candidate.value);
      }
    }

    /** The locked query for the next victim. */
    method Candidate() returns (candidate: Option<Hash>)
      requires Valid()
      ensures candidate.None? <==> TotalSize(entries) <= maxBytes || entries.Keys <= pinned
      ensures candidate.Some? ==> Oldest(entries, pinned, candidate.value)
    {
      hide TotalSize;
      if currentBytes <= maxBytes || entries.Keys <= pinned {
        return None;
      }
      var rest := entries.Keys - pinned;
      ghost var unpinned :| unpinned in entries.Keys && unpinned !in pinned;
      assert unpinned in rest;
      var best :| best in rest;
      rest := rest - {best};
      while rest != {}
        invariant best in entries && best !in pinned && rest <= entries.Keys - pinned
        invariant forall h | h in entries && h !in pinned && h !in rest ::
                  entries[best].lastAccess <= entries[h].lastAccess
      {
        var h :| h in rest;
        if entries[h].lastAccess < entries[best].lastAccess {
          best := h;
        }
        rest := rest - {h};
      }
      return Some(best);
    }

    /** Rebuilds the index from the files whose names are digests, then evicts. */
    method Initialize(accessTimes: map<Hash, int>) returns (ghost victims: seq<Hash>)
      requires accessTimes.Keys == files.Keys
      modifies this`files, this`entries, this`currentBytes
      ensures Valid()
      ensures
        var scanned := map h | h in old(files) && IsHash(h) :: CacheEntry(|old(files)[h]|, accessTimes[h]);
        Pass(scanned, pinned, maxBytes, victims, entries)
      ensures files == old(files) - Elements(victims)
    {
      hide TotalSize;
      entries, currentBytes := map[], 0;
      assert TotalSize(map[]) == 0 by { NothingIsEmpty(); }
      var rest := files.Keys;
      while rest != {}
        invariant Valid() && rest <= files.Keys && files == old(files)
        invariant entries == map h | h in files && h !in rest && IsHash(h) :: CacheEntry(|files[h]|, accessTimes[h])
      {
        var name :| name in rest;
        rest := rest - {name};
        if !IsHash(name) {
          continue;
        }
        SizesInsert(entries, name, CacheEntry(|files[name]|, accessTimes[name]));
        entries := entries[name := CacheEntry(|files[name]|, accessTimes[name])];
        currentBytes := currentBytes + |files[name]|;
      }
      assert entries == map h | h in files && IsHash(h) :: CacheEntry(|files[h]|, accessTimes[h]);
      victims := EvictIfNeeded();
    }

    /** Returns the stored bytes only if they still have the digest they are filed under, and deletes them otherwise. */
    method Read(name: Hash, now: int) returns (r: Result<Option<Bytes>, CacheError>)
      requires Valid()
      modifies this`files, this`entries, this`currentBytes
      ensures Valid() && (old(Indexed()) ==> Indexed()) && (old(Authentic()) ==> Authentic())
      ensures r.Err? <==> !IsHash(name)
      ensures r.Ok? ==>
                r.value == if name in old(files) && hash(old(files)[name]) == name then Some(old(files)[name]) else None
      ensures files == if r.Ok? && r.value.None? then old(files) - {name} else old(files)
      ensures entries ==
                if r.Ok? && r.value.None? && name in old(files) then old(entries) - {name}
                else if r.Ok? && r.value.Some? && name in old(entries) then
                  old(entries)[name := old(entries)[name].(lastAccess := now)]
                else old(entries)
    {
      hide TotalSize;
      if !IsHash(name) {
        return Err(BadName);
      }
      if name !in files {
        return Ok(None);
      }
      var bytes := files[name];
      if hash(bytes) != name {
        Delete(name);
        return Ok(None);
      }
      if name in entries {
        SizesInsert(entries, name, entries[name].(lastAccess := now));
        entries := entries[name := entries[name].(lastAccess := now)];
      }
      return Ok(Some(bytes));
    }

    /** The locked bookkeeping of a stored chunk. */
    method Record(name: Hash, size: nat, now: int)
      requires Valid()
      modifies this`entries, this`currentBytes
      ensures Valid() && entries == old(entries)[name := CacheEntry(size, now)]
    {
      SizesInsert(entries, name, CacheEntry(size, now));
      if name in entries {
        currentBytes := currentBytes - entries[name].size;
      }
      entries := entries[name := CacheEntry(size, now)];
      currentBytes := currentBytes + size;
    }

    /** Stores bytes under their digest and nothing else under any name, then evicts. */
    method Put(name: Hash, bytes: Bytes, now: int) returns (error: Option<CacheError>, ghost victims: seq<Hash>)
      requires Valid()
      modifies this`files, this`entries, this`currentBytes
      ensures Valid() && (old(Indexed()) ==> Indexed()) && (old(Authentic()) ==> Authentic())
      ensures error.None? <==> IsHash(name) && hash(bytes) == name
      ensures error.Some? ==> files == old(files) && entries == old(entries)
      ensures error.None? ==>
                && Pass(old(entries)[name := CacheEntry(|bytes|, now)], pinned, maxBytes, victims, entries)
                && files == old(files)[name := bytes] - Elements(victims)
    {
      hide TotalSize, Pass;
      victims := [];
      if !IsHash(name) {
        return Some(BadName), victims;
      }
      if hash(bytes) != name {
        return Some(HashMismatch), victims;
      }
      files := files[name := bytes];
      Record(name, |bytes|, now);
      victims := EvictIfNeeded();
      error := None;
    }

    /** As Put, but the bytes come from a file that is moved in. */
    method PutFile(name: Hash, source: Option<Bytes>, now: int)
      returns (error: Option<CacheError>, left: Option<Bytes>, ghost victims: seq<Hash>)
      requires Valid()
      modifies this`files, this`entries, this`currentBytes
      ensures Valid() && (old(Indexed()) ==> Indexed()) && (old(Authentic()) ==> Authentic())
      ensures error.None? <==> IsHash(name) && source.Some? && hash(source.value) == name
      ensures error.Some? ==> files == old(files) && entries == old(entries) && left == source
      ensures error.None? ==>
                && left == None
                && Pass(old(entries)[name := CacheEntry(|source.value|, now)], pinned, maxBytes, victims, entries)
                && files == old(files)[name := source.value] - Elements(victims)
    {
      hide TotalSize, Pass;
      victims := [];
      if !IsHash(name) {
        return Some(BadName), source, victims;
      }
      if source.None? {
        return Some(SourceMissing), source, victims;
      }
      if hash(source.value) != name {
        return Some(HashMismatch), source, victims;
      }
      files := files[name := source.value];
      Record(name, |source.value|, now);
      victims := EvictIfNeeded();
      error, left := None, None;
    }

    /** Deletes every indexed entry that is not pinned. */
    method Clear()
      requires Valid()
      modifies this`files, this`entries, this`currentBytes
      ensures Valid() && (old(Indexed()) ==> Indexed()) && (old(Authentic()) ==> Authentic())
      ensures entries == map h | h in old(entries) && h in pinned :: old(entries)[h]
      ensures files == old(files) - (old(entries).Keys - pinned)
    {
      hide TotalSize;
      var hashes := entries.Keys - pinned;
      var rest := hashes;
      assert files == old(files) - (hashes - rest) && entries == old(entries) - (hashes - rest);
      while rest != {}
        invariant Valid() && rest <= hashes
        invariant entries == old(entries) - (hashes - rest) && files == old(files) - (hashes - rest)
        invariant (old(Indexed()) ==> Indexed()) && (old(Authentic()) ==> Authentic())
      {
        var name :| name in rest;
        Delete(name);
        assert hashes - (rest - {name}) == (hashes - rest) + {name};
        rest := rest - {name};
      }
      assert hashes - rest == hashes;
    }

    // ---- Pins.

    /** Every chunk someone holds a lease on is pinned. */
    ghost predicate Covered()
      reads this
    {
      forall h | h in leases :: h in pinned
    }

    method Pin(name: Hash) returns (lease: Option<PinLease>)
      modifies this`pinned, this`leases
      ensures lease.Some? <==> IsHash(name)
      ensures lease.Some? ==>
                && fresh(lease.value) && lease.value.cache == this && lease.value.name == name && !lease.value.disposed
                && pinned == old(pinned) + {name} && leases == old(leases) + multiset{name}
                && (old(Covered()) ==> Covered())
      ensures lease.None? ==> pinned == old(pinned) && leases == old(leases)
    {
      if !IsHash(name) {
        return None;
      }
      pinned := pinned + {name};
      leases := leases + multiset{name};
      var granted := new PinLease(this, name);
      return Some(granted);
    }
  }

  class PinLease {
    const cache: ChunkCache
    const name: Hash

    var disposed: bool

    constructor (cache: ChunkCache, name: Hash)
      ensures this.cache == cache && this.name == name && !disposed
    {
      this.cache, this.name, disposed := cache, name, false;
    }

    /** Unpins, once. Other leases stay covered exactly when none of them is on the same chunk. */
    method Dispose()
      requires !disposed ==> name in cache.leases
      modifies this, cache`pinned, cache`leases
      ensures disposed
      ensures cache.pinned == if old(disposed) then old(cache.pinned) else old(cache.pinned) - {name}
      ensures cache.leases == if old(disposed) then old(cache.leases) else old(cache.leases) - multiset{name}
      ensures !old(disposed) && old(cache.Covered()) ==> (cache.Covered() <==> old(cache.leases)[name] == 1)
    {
      if !disposed {
        disposed := true;
        cache.pinned := cache.pinned - {name};
        cache.leases := cache.leases - multiset{name};
        assert name in cache.leases ==> name !in cache.pinned;
      }
    }
  }

  /** Two leases on one chunk: disposing the first leaves the chunk of the second unpinned. */
  method DisposeOneOfTwo(cache: ChunkCache, name: Hash) returns (kept: PinLease)
    requires IsHash(name) && cache.Covered()
    modifies cache`pinned, cache`leases
    ensures fresh(kept) && kept.cache == cache && kept.name == name && !kept.disposed
    ensures name in cache.leases && !cache.Covered()
  {
    var first := cache.Pin(name);
    var second := cache.Pin(name);
    kept := second.value;
    first.value.Dispose();
    assert name in cache.leases && name !in cache.pinned;
  }

  lemma NothingTaken(files: map<Hash, Bytes>)
    ensures files == files - Elements<Hash>([])
  {
  }

  lemma OneMoreTaken(files: map<Hash, Bytes>, victims: seq<Hash>, victim: Hash)
    ensures files - Elements(victims + [victim]) == files - Elements(victims) - {victim}
  {
    assert Elements(victims + [victim]) == Elements(victims) + {victim};
  }

  lemma NothingIsEmpty()
    ensures TotalSize(map[]) == 0
  {
    assert Sizes(map[]) == map[];
  }

  lemma PassStarts(entries: Entries, pinned: set<Hash>, limit: nat)
    ensures PassSoFar(entries, pinned, limit, [], entries)
  {
  }

  lemma OldestIsThere(entries: Entries, pinned: set<Hash>, hash: Hash)
    requires Oldest(entries, pinned, hash)
    ensures hash in entries && |entries - {hash}| < |entries|
  {
    assert (entries - {hash}).Keys == entries.Keys - {hash};
  }
}

/**
 * The cache without the assumption that a call runs alone. A delete and a put each take two steps, first on the file
 * and then, under the lock, on the index; steps of different calls may come between.
 */
module CacheInterleavings {
  import opened Common
  import opened Manifests

  /** One call, with the size of the file it stores. */
  datatype Call = Delete(name: Hash) | Put(name: Hash, size: nat)

  datatype Step = OnFile(call: Call) | OnIndex(call: Call)

  /** File sizes, and the sizes the index believes. */
  datatype State = State(files: map<Hash, nat>, index: map<Hash, nat>)

  ghost predicate Indexed(s: State) {
    s.files == s.index
  }

  function Perform(sizes: map<Hash, nat>, call: Call): map<Hash, nat> {
    match call
    case Delete(name) => sizes - {name}
    case Put(name, size) => sizes[name := size]
  }

  function Apply(s: State, step: Step): State {
    match step
    case OnFile(call) => s.(files := Perform(s.files, call))
    case OnIndex(call) => s.(index := Perform(s.index, call))
  }

  function Run(s: State, steps: seq<Step>): State {
    if steps == [] then s else Apply(Run(s, steps[..|steps| - 1]), steps[|steps| - 1])
  }

  /** The last call whose step of one kind touched a name. */
  function LastFileCall(steps: seq<Step>, name: Hash): Option<Call> {
    if steps == [] then None else
      var last := steps[|steps| - 1];
      if last.OnFile? && last.call.name == name then Some(last.call) else LastFileCall(steps[..|steps| - 1], name)
  }

  function LastIndexCall(steps: seq<Step>, name: Hash): Option<Call> {
    if steps == [] then None else
      var last := steps[|steps| - 1];
      if last.OnIndex? && last.call.name == name then Some(last.call) else LastIndexCall(steps[..|steps| - 1], name)
  }

  /** What a name's last call makes of it. */
  function Left(before: map<Hash, nat>, call: Option<Call>, name: Hash): Option<nat> {
    match call
    case None => if name in before then Some(before[name]) else None
    case Some(Delete(_)) => None
    case Some(Put(_, size)) => Some(size)
  }

  function At(sizes: map<Hash, nat>, name: Hash): Option<nat> {
    if name in sizes then Some(sizes[name]) else None
  }

  lemma {:induction false} RunAt(s: State, steps: seq<Step>, name: Hash)
    ensures At(Run(s, steps).files, name) == Left(s.files, LastFileCall(steps, name), name)
    ensures At(Run(s, steps).index, name) == Left(s.index, LastIndexCall(steps, name), name)
  {
    if steps == [] {
      assert Run(s, steps) == s;
    } else {
      RunAt(s, steps[..|steps| - 1], name);
    }
  }

  /** The last call to reach the name's file and the last to reach its entry leave the same. */
  predicate LastCallsAgree(s: State, steps: seq<Step>, name: Hash) {
    Left(s.files, LastFileCall(steps, name), name) == Left(s.files, LastIndexCall(steps, name), name)
  }

  /** Whatever calls interleave and however, the index describes the files if and only if the last calls agree. */
  lemma IndexedAfterIff(s: State, steps: seq<Step>)
    requires Indexed(s)
    ensures Indexed(Run(s, steps)) <==> forall name :: LastCallsAgree(s, steps, name)
  {
    var after := Run(s, steps);
    forall name ensures LastCallsAgree(s, steps, name) <==> At(after.files, name) == At(after.index, name) {
      RunAt(s, steps, name);
    }
    SameEverywhere(after.files, after.index);
  }

  lemma SameEverywhere(a: map<Hash, nat>, b: map<Hash, nat>)
    ensures a == b <==> forall name :: At(a, name) == At(b, name)
  {
    if forall name :: At(a, name) == At(b, name) {
      forall name ensures name in a <==> name in b {
        assert At(a, name) == At(b, name);
      }
      forall name | name in a ensures a[name] == b[name] {
        assert At(a, name) == At(b, name);
      }
    }
  }

  lemma {:induction false} LastFileCallIs(steps: seq<Step>, name: Hash, at: nat)
    requires at < |steps| && steps[at].OnFile? && steps[at].call.name == name
    requires forall k | at < k < |steps| :: !(steps[k].OnFile? && steps[k].call.name == name)
    ensures LastFileCall(steps, name) == Some(steps[at].call)
  {
    if at == |steps| - 1 {
      assert steps[|steps| - 1] == steps[at];
    } else {
      LastFileCallIs(steps[..|steps| - 1], name, at);
    }
  }

  lemma {:induction false} LastIndexCallIs(steps: seq<Step>, name: Hash, at: nat)
    requires at < |steps| && steps[at].OnIndex? && steps[at].call.name == name
    requires forall k | at < k < |steps| :: !(steps[k].OnIndex? && steps[k].call.name == name)
    ensures LastIndexCall(steps, name) == Some(steps[at].call)
  {
    if at == |steps| - 1 {
      assert steps[|steps| - 1] == steps[at];
    } else {
      LastIndexCallIs(steps[..|steps| - 1], name, at);
    }
  }

  /** These four steps are the only ones on this name: a delete's at `df` and `di`, a put's at `pf` and `pi`. */
  ghost predicate DeleteMeetsPut(steps: seq<Step>, name: Hash, size: nat, df: nat, di: nat, pf: nat, pi: nat) {
    && df < di < |steps| && pf < pi < |steps| && df != pf && di != pi
    && steps[df] == OnFile(Delete(name)) && steps[di] == OnIndex(Delete(name))
    && steps[pf] == OnFile(Put(name, size)) && steps[pi] == OnIndex(Put(name, size))
    && forall k | 0 <= k < |steps| && k != df && k != di && k != pf && k != pi :: steps[k].call.name != name
  }

  /**
   * One delete and one put of the same chunk, among any calls on other chunks: the chunk stays rightly indexed if and
   * only if the call that is first at the file is first at the index, too.
   */
  lemma DeleteMeetsPutIff(s: State, steps: seq<Step>, name: Hash, size: nat, df: nat, di: nat, pf: nat, pi: nat)
    requires DeleteMeetsPut(steps, name, size, df, di, pf, pi)
    ensures At(Run(s, steps).files, name) == At(Run(s, steps).index, name) <==> (df < pf <==> di < pi)
  {
    RunAt(s, steps, name);
    LastFileCallIs(steps, name, if df < pf then pf else df);
    LastIndexCallIs(steps, name, if di < pi then pi else di);
  }

  /** An eviction that deletes a file, is overtaken by a put, and then drops the entry that the put has written. */
  lemma UnindexedFile(name: Hash)
    ensures
      var d, p := Delete(name), Put(name, 5);
      var after := Run(State(map[name := 5], map[name := 5]), [OnFile(d), OnFile(p), OnIndex(p), OnIndex(d)]);
      name in after.files && name !in after.index
  {
    var d, p := Delete(name), Put(name, 5);
    var s, steps := State(map[name := 5], map[name := 5]), [OnFile(d), OnFile(p), OnIndex(p), OnIndex(d)];
    RunAt(s, steps, name);
    LastFileCallIs(steps, name, 1);
    LastIndexCallIs(steps, name, 3);
  }
}

/**
 * The byte counter without the assumption that the rebuilding of the index runs alone: a scan adds the length of a file
 * without subtracting an entry that is there already.
 */
module CounterInterleavings {
  import opened Common
  import opened Manifests
  import opened MapSums

  /** What one lock-protected step does: clear all, scan one file in, store one chunk, drop one entry. */
  datatype Step = Clear | Scan(name: Hash, size: nat) | Store(name: Hash, size: nat) | Drop(name: Hash)

  datatype State = State(index: map<Hash, nat>, counter: int)

  function SizeAt(index: map<Hash, nat>, name: Hash): nat {
    if name in index then index[name] else 0
  }

  function Apply(s: State, step: Step): State {
    match step
    case Clear => State(map[], 0)
    case Scan(name, size) => State(s.index[name := size], s.counter + size)
    case Store(name, size) => State(s.index[name := size], s.counter - SizeAt(s.index, name) + size)
    case Drop(name) => State(s.index - {name}, s.counter - SizeAt(s.index, name))
  }

  function Run(s: State, steps: seq<Step>): State {
    if steps == [] then s else Apply(Run(s, steps[..|steps| - 1]), steps[|steps| - 1])
  }

  /** How much the counter is above the sum of the indexed sizes. */
  ghost function Excess(s: State): int {
    s.counter - Sum(s.index)
  }

  /** The bytes that scans since the last clearing found indexed already. */
  function Twice(s: State, steps: seq<Step>): nat {
    if steps == [] then 0 else
      var before, last := steps[..|steps| - 1], steps[|steps| - 1];
      match last
      case Clear => 0
      case Scan(name, _) => Twice(s, before) + SizeAt(Run(s, before).index, name)
      case _ => Twice(s, before)
  }

  lemma StepExcess(s: State, step: Step)
    ensures Excess(Apply(s, step)) ==
      match step
      case Clear => 0
      case Scan(name, _) => Excess(s) + SizeAt(s.index, name)
      case _ => Excess(s)
  {
    match step
    case Clear =>
    case Scan(name, size) => SumInsert(s.index, name, size);
    case Store(name, size) => SumInsert(s.index, name, size);
    case Drop(name) =>
      if name in s.index {
        SumRemove(s.index, name);
      } else {
        assert s.index - {name} == s.index;
      }
  }

  lemma {:induction false} RunExcess(s: State, steps: seq<Step>)
    requires Excess(s) == 0
    ensures Excess(Run(s, steps)) == Twice(s, steps)
  {
    if steps == [] {
      assert Run(s, steps) == s;
    } else {
      RunExcess(s, steps[..|steps| - 1]);
      StepExcess(Run(s, steps[..|steps| - 1]), steps[|steps| - 1]);
    }
  }

  /** This scan finds bytes indexed already, and the index is not cleared after it. */
  predicate FindsIndexed(s: State, steps: seq<Step>, k: nat)
    requires k < |steps|
  {
    && steps[k].Scan? && SizeAt(Run(s, steps[..k]).index, steps[k].name) > 0
    && forall j | k < j < |steps| :: !steps[j].Clear?
  }

  lemma {:induction false} TwiceIff(s: State, steps: seq<Step>)
    ensures Twice(s, steps) > 0 <==> exists k | 0 <= k < |steps| :: FindsIndexed(s, steps, k)
  {
    if steps == [] {
      assert Twice(s, steps) == 0;
    } else {
      var n := |steps| - 1;
      var before := steps[..n];
      TwiceIff(s, before);
      forall k | 0 <= k < n ensures FindsIndexed(s, steps, k) <==> FindsIndexed(s, before, k) && !steps[n].Clear? {
        assert before[..k] == steps[..k] && before[k] == steps[k];
        assert forall j | k < j < n :: before[j] == steps[j];
      }
      assert FindsIndexed(s, steps, n) <==> steps[n].Scan? && SizeAt(Run(s, before).index, steps[n].name) > 0;
    }
  }

  /**
   * Whatever steps interleave and however, the counter is the sum of the indexed sizes if and only if no scan since the
   * last clearing found a file indexed already.
   */
  lemma CounterIsSumIff(s: State, steps: seq<Step>)
    requires s.counter == Sum(s.index)
    ensures
      var after := Run(s, steps);
      after.counter == Sum(after.index) <==> forall k | 0 <= k < |steps| :: !FindsIndexed(s, steps, k)
  {
    RunExcess(s, steps);
    TwiceIff(s, steps);
  }

  /** A chunk stored between the clearing and the scan is counted twice. */
  lemma CountedTwice(name: Hash)
    ensures
      var after := Run(State(map[], 0), [Clear, Store(name, 5), Scan(name, 5)]);
      after.index == map[name := 5] && after.counter == 10
  {
    var s, steps := State(map[], 0), [Clear, Store(name, 5), Scan(name, 5)];
    assert steps[..2] == [Clear, Store(name, 5)] && [Clear, Store(name, 5)][..1] == [Clear] && [Clear][..0] == [];
    assert Run(s, [Clear]) == Apply(Run(s, []), Clear);
    assert Run(s, steps[..2]) == Apply(Run(s, [Clear]), Store(name, 5));
    assert Run(s, steps) == Apply(Run(s, steps[..2]), Scan(name, 5));
  }
}
