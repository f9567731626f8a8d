/** A whole download on the cache it fills: first from packs, then chunk by chunk. */
module DownloadRun {
  import opened CacheRoom
  import opened Common
  import opened DownloadAccounting
  import opened Manifests
  import opened MapSums
  import opened PackDownload
  import opened Eviction
  import opened Reconstruction
  import opened Transactions
  import Cache = ChunkCache

  /** What fetching one chunk ends with. */
  datatype Served = Served(bytes: Bytes, networkBytes: nat)

  /** Everything outside: the packs, the resolver's answer to a set of hashes, and what fetching a chunk brings. */
  datatype Network = Outside(
    packsEnabled: bool,
    offered: seq<Pack>,
    fetched: map<Hash, nat>,
    contents: PackContents,
    threshold: real,
    resolver: set<Hash> -> set<Hash>,
    served: Hash -> Option<Served>)

  /** How one chunk's task ends: as counted, or with one of two exceptions. */
  datatype TaskEnd = Ended(ending: Ending) | NoLocation | FetchFailed

  /** In which order threads perform a list of additions. */
  type Schedule = seq<Add> -> seq<Add>

  datatype Report = Report(totalBytes: nat, packNetworkBytes: nat, packLogicalBytes: nat)

  // ---- What a download is made of.

  ghost predicate HashesDiffer(chunks: seq<ChunkRef>) {
    forall i, j | 0 <= i < j < |chunks| :: chunks[i].encodedHash != chunks[j].encodedHash
  }

  ghost predicate AllHashes(chunks: seq<ChunkRef>) {
    forall k | 0 <= k < |chunks| :: IsHash(chunks[k].encodedHash)
  }

  /** A resolver answers nothing that it was not asked for. */
  ghost predicate AnswersOnlyAsked(network: Network) {
    forall asked :: network.resolver(asked) <= asked
  }

  /** Fetching a chunk brings bytes of its digest and size, or nothing. */
  ghost predicate ServesTrue(network: Network, hash: Bytes -> Hash, chunks: seq<ChunkRef>) {
    forall k | 0 <= k < |chunks| :: ServesChunk(network, hash, chunks[k])
  }

  predicate ServesChunk(network: Network, hash: Bytes -> Hash, chunk: ChunkRef) {
    network.served(chunk.encodedHash).Some? ==>
      && hash(network.served(chunk.encodedHash).value.bytes) == chunk.encodedHash
      && |network.served(chunk.encodedHash).value.bytes| == chunk.encodedSize
  }

  ghost predicate SizesFrom(chunks: seq<ChunkRef>, sizes: map<Hash, nat>) {
    && (forall h | h in sizes :: HasHash(chunks, h))
    && forall k | 0 <= k < |chunks| && chunks[k].encodedHash in sizes ::
          sizes[chunks[k].encodedHash] == chunks[k].encodedSize
  }

  /** Tasks take their turns in any order. */
  ghost predicate Permutes(turns: seq<nat>, count: nat) {
    && |turns| == count
    && (forall i | 0 <= i < count :: turns[i] < count)
    && (forall i, j | 0 <= i < j < count :: turns[i] != turns[j])
    && forall k | 0 <= k < count :: k in turns
  }

  function EndOf(hash: Hash, prepared: set<Hash>, locations: set<Hash>, network: Network, cached: bool): TaskEnd {
    if cached then Ended(if hash in prepared then FromPack else FromCache)
    else if hash !in locations then NoLocation
    else
      match network.served(hash)
      case None => FetchFailed
      case Some(s) => Ended(Fetched(s.networkBytes))
  }

  /** Each task ends as what it finds in the cache, and the locations it was given, make it. */
  ghost predicate EndsAsFound(chunks: seq<ChunkRef>, prepared: set<Hash>, locations: set<Hash>, network: Network,
                              looked: seq<bool>, ends: seq<TaskEnd>)
  {
    && |looked| == |ends| == |chunks|
    && forall k | 0 <= k < |chunks| :: ends[k] == EndOf(chunks[k].encodedHash, prepared, locations, network, looked[k])
  }

  ghost predicate SomeTask(ends: seq<TaskEnd>, end: TaskEnd) {
    exists k | 0 <= k < |ends| :: ends[k] == end
  }

  /** A chunk for which nobody asked had left the cache when its task looked. */
  ghost predicate LostBeforeItsTask(chunks: seq<ChunkRef>, asked: set<Hash>, looked: seq<bool>)
    requires |looked| == |chunks|
  {
    exists k | 0 <= k < |chunks| :: chunks[k].encodedHash !in asked && !looked[k]
  }

  /**
   * With a resolver that answers exactly what it is asked, no task fails for want of a location if and only if every
   * chunk that was not asked for, because a pack had brought it or the cache held it, is there when its task looks.
   */
  lemma NoLocationIff(chunks: seq<ChunkRef>, prepared: set<Hash>, asked: set<Hash>, network: Network, looked: seq<bool>,
                      ends: seq<TaskEnd>)
    requires EndsAsFound(chunks, prepared, asked, network, looked, ends)
    ensures SomeTask(ends, NoLocation) <==> LostBeforeItsTask(chunks, asked, looked)
  {
    if LostBeforeItsTask(chunks, asked, looked) {
      var k :| 0 <= k < |chunks| && chunks[k].encodedHash !in asked && !looked[k];
      assert ends[k] == NoLocation;
    }
    if SomeTask(ends, NoLocation) {
      var k :| 0 <= k < |ends| && ends[k] == NoLocation;
      assert chunks[k].encodedHash !in asked && !looked[k];
    }
  }

  // ---- The account.

  /** A task that finds its chunk counts it as downloaded if a pack brought it; a fetched chunk no pack brought. */
  ghost predicate Consistent(chunks: seq<ChunkRef>, endings: seq<Ending>, prepared: set<Hash>) {
    && |endings| == |chunks|
    && forall k | 0 <= k < |chunks| :: endings[k].FromPack? <==> chunks[k].encodedHash in prepared
  }

  /** Of what packs prepared, every byte is found by a task. */
  lemma {:induction false} PreparedIsFound(sizes: map<Hash, nat>, prepared: set<Hash>, chunks: seq<ChunkRef>,
                                           endings: seq<Ending>)
    requires HashesDiffer(chunks) && SizesFrom(chunks, sizes) && prepared <= sizes.Keys
    requires Consistent(chunks, endings, prepared)
    ensures Sum(SizesOf(sizes, prepared)) == PackTotal(chunks, endings)
    decreases |chunks|
  {
    hide Consistent, SizesFrom, HashesDiffer;
    if chunks == [] {
      NothingToFind(sizes, prepared, chunks);
    } else {
      var h := chunks[0].encodedHash;
      WithoutFirst(sizes, prepared, chunks, endings);
      SumOfFirst(sizes, prepared, h);
      PreparedIsFound(sizes - {h}, prepared - {h}, chunks[1..], endings[1..]);
    }
  }

  lemma NothingToFind(sizes: map<Hash, nat>, prepared: set<Hash>, chunks: seq<ChunkRef>)
    requires chunks == [] && SizesFrom(chunks, sizes)
    ensures SizesOf(sizes, prepared) == map[]
  {
    assert forall h | h in sizes :: HasHash(chunks, h);
  }

  lemma SumOfFirst(sizes: map<Hash, nat>, prepared: set<Hash>, h: Hash)
    requires prepared <= sizes.Keys
    ensures Sum(SizesOf(sizes, prepared)) ==
              (if h in prepared then sizes[h] else 0) + Sum(SizesOf(sizes - {h}, prepared - {h}))
  {
    assert SizesOf(sizes - {h}, prepared - {h}) == SizesOf(sizes, prepared) - {h};
    if h in prepared {
      SumRemove(SizesOf(sizes, prepared), h);
    } else {
      assert SizesOf(sizes, prepared) - {h} == SizesOf(sizes, prepared);
    }
  }

  lemma WithoutFirst(sizes: map<Hash, nat>, prepared: set<Hash>, chunks: seq<ChunkRef>, endings: seq<Ending>)
    requires chunks != [] && HashesDiffer(chunks) && SizesFrom(chunks, sizes) && prepared <= sizes.Keys
    requires Consistent(chunks, endings, prepared)
    ensures
      var h, rest := chunks[0].encodedHash, chunks[1..];
      && HashesDiffer(rest) && SizesFrom(rest, sizes - {h}) && prepared - {h} <= (sizes - {h}).Keys
      && Consistent(rest, endings[1..], prepared - {h})
    ensures |endings| == |chunks|
    ensures
      var first := chunks[0];
      && (endings[0].FromPack? <==> first.encodedHash in prepared)
      && (first.encodedHash in prepared ==> sizes[first.encodedHash] == first.encodedSize)
  {
    var h, rest := chunks[0].encodedHash, chunks[1..];
    assert forall k | 0 <= k < |rest| :: rest[k] == chunks[k + 1] && endings[1..][k] == endings[k + 1];
    forall g | g in sizes - {h} ensures HasHash(rest, g) {
      assert HasHash(chunks, g);
      var k :| 0 <= k < |chunks| && chunks[k].encodedHash == g;
      assert rest[k - 1].encodedHash == g;
    }
  }

  function EndingsOf(ends: seq<TaskEnd>): seq<Ending>
    requires forall k | 0 <= k < |ends| :: ends[k].Ended?
  {
    seq(|ends|, k requires 0 <= k < |ends| => ends[k].ending)
  }

  /** If all tasks end well, exactly the prepared chunks were found from packs. */
  lemma GoodEndsAreConsistent(chunks: seq<ChunkRef>, prepared: set<Hash>, locations: set<Hash>, network: Network,
                              looked: seq<bool>, ends: seq<TaskEnd>)
    requires EndsAsFound(chunks, prepared, locations, network, looked, ends) && prepared !! locations
    requires forall k | 0 <= k < |ends| :: ends[k].Ended?
    ensures Consistent(chunks, EndingsOf(ends), prepared)
  {
  }

  // ---- The cache while a download runs.

  ghost predicate CacheOk(cache: Cache.ChunkCache)
    reads cache
  {
    cache.Valid() && cache.Authentic() && cache.Indexed()
  }

  ghost predicate HasRoom(cache: Cache.ChunkCache, plan: Plan, touched: set<Hash>)
    reads cache
  {
    Roomy(cache.entries, cache.pinned, cache.maxBytes, plan, touched)
  }

  /** Other users of the cache store and delete what they like. */
  method Others(cache: Cache.ChunkCache, alone: bool)
    requires CacheOk(cache)
    modifies cache`files, cache`entries, cache`currentBytes
    ensures CacheOk(cache)
    ensures alone ==> cache.files == old(cache.files) && cache.entries == old(cache.entries)
  {
    hide Pass, TotalSize;
    if alone {
      return;
    }
    var calls :| calls >= 0;
    for call := 0 to calls
      invariant CacheOk(cache)
    {
      var name: Hash, bytes: Bytes, now: int, stores: bool := *, *, *, *;
      if stores {
        ghost var victims;
        var error;
        error, victims := cache.Put(name, bytes, now);
      } else {
        cache.Delete(name);
      }
    }
  }

  /** The chunks that are not in the cache, and not in `skip`. Looking for a chunk touches it. */
  method FindMissing(cache: Cache.ChunkCache, chunks: seq<ChunkRef>, skip: set<Hash>, now: int, ghost plan: Plan,
                     ghost touched: set<Hash>)
    returns (missing: map<Hash, nat>)
    requires CacheOk(cache) && AllHashes(chunks) && HashesDiffer(chunks) && Plans(plan, chunks)
    modifies cache`files, cache`entries, cache`currentBytes
    ensures CacheOk(cache) && cache.files == old(cache.files)
    ensures SizesFrom(chunks, missing)
    ensures forall k | 0 <= k < |chunks| ::
              var h := chunks[k].encodedHash;
              h in missing <==> h !in skip && h !in cache.files
    ensures old(HasRoom(cache, plan, touched)) && now >= plan.start ==>
              HasRoom(cache, plan, touched + (plan.wanted.Keys - skip))
  {
    hide Roomy, TotalSize, HashesDiffer, Plans, LookedAt, CacheOk, SizesFrom;
    missing := map[];
    ghost var good, seen := HasRoom(cache, plan, touched) && now >= plan.start, touched;
    NothingLookedAt(chunks, skip, touched, cache.files);
    for i := 0 to |chunks|
      invariant CacheOk(cache) && cache.files == old(cache.files)
      invariant LookedAt(chunks, i, missing, skip, touched, seen, cache.files)
      invariant good ==> HasRoom(cache, plan, seen)
    {
      var chunk := chunks[i];
      var h := chunk.encodedHash;
      LookAtOne(chunks, i, missing, skip, touched, seen, cache.files);
      if h in skip {
        continue;
      }
      ghost var before := cache.entries;
      var found := Look(cache, h, now);
      if good {
        WantedBy(plan, chunks, i);
        ReadKeepsRoom(before, cache.pinned, cache.maxBytes, plan, seen, h, now);
      }
      seen := seen + {h};
      if !found {
        missing := missing[h := chunk.encodedSize];
      }
    }
    AllLookedAt(chunks, missing, skip, touched, seen, cache.files, plan);
    if good {
      TouchedEnough(cache.entries, cache.pinned, cache.maxBytes, plan, seen, touched + (plan.wanted.Keys - skip));
    }
  }

  /** A look into a sound cache: it deletes nothing. */
  method Look(cache: Cache.ChunkCache, h: Hash, now: int) returns (found: bool)
    requires CacheOk(cache) && IsHash(h)
    modifies cache`files, cache`entries, cache`currentBytes
    ensures CacheOk(cache) && cache.files == old(cache.files) && found == (h in cache.files)
    ensures cache.entries ==
            if h in old(cache.entries) then old(cache.entries)[h := old(cache.entries)[h].(lastAccess := now)]
            else old(cache.entries)
  {
    var r := cache.Read(h, now);
    found := r.value.Some?;
    assert h !in old(cache.files) ==> old(cache.files) - {h} == old(cache.files);
  }

  /** The first `count` chunks have been looked for, but for the skipped ones; those missing are noted. */
  ghost predicate LookedAt(chunks: seq<ChunkRef>, count: nat, missing: map<Hash, nat>, skip: set<Hash>,
                           touched: set<Hash>,
                           seen: set<Hash>, files: map<Hash, Bytes>)
  {
    && count <= |chunks| && SizesFrom(chunks, missing) && touched <= seen
    && (forall h | h in missing :: exists k | 0 <= k < count :: chunks[k].encodedHash == h)
    && forall k | 0 <= k < count :: LookedAtOne(chunks[k].encodedHash, missing, skip, seen, files)
  }

  predicate LookedAtOne(h: Hash, missing: map<Hash, nat>, skip: set<Hash>, seen: set<Hash>, files: map<Hash, Bytes>) {
    (h in missing <==> h !in skip && h !in files) && (h in skip || h in seen)
  }

  lemma NothingLookedAt(chunks: seq<ChunkRef>, skip: set<Hash>, touched: set<Hash>, files: map<Hash, Bytes>)
    ensures LookedAt(chunks, 0, map[], skip, touched, touched, files)
  {
  }

  lemma LookAtOne(chunks: seq<ChunkRef>, i: nat, missing: map<Hash, nat>, skip: set<Hash>, touched: set<Hash>,
                  seen: set<Hash>,
                  files: map<Hash, Bytes>)
    requires i < |chunks| && HashesDiffer(chunks) && LookedAt(chunks, i, missing, skip, touched, seen, files)
    ensures
      var h := chunks[i].encodedHash;
      if h in skip then LookedAt(chunks, i + 1, missing, skip, touched, seen, files)
      else if h in files then LookedAt(chunks, i + 1, missing, skip, touched, seen + {h}, files)
      else LookedAt(chunks, i + 1, missing[h := chunks[i].encodedSize], skip, touched, seen + {h}, files)
  {
    var h := chunks[i].encodedHash;
    assert h !in missing;
    var more := if h in skip || h in files then missing else missing[h := chunks[i].encodedSize];
    forall g | g in more ensures exists k | 0 <= k < i + 1 :: chunks[k].encodedHash == g {
      if g == h {
        assert chunks[i].encodedHash == g;
      }
    }
    assert SizesFrom(chunks, more) by {
      forall g | g in more ensures HasHash(chunks, g) {
        var k :| 0 <= k < i + 1 && chunks[k].encodedHash == g;
      }
    }
  }

  lemma AllLookedAt(chunks: seq<ChunkRef>, missing: map<Hash, nat>, skip: set<Hash>, touched: set<Hash>,
                    seen: set<Hash>,
                    files: map<Hash, Bytes>, plan: Plan)
    requires LookedAt(chunks, |chunks|, missing, skip, touched, seen, files) && Plans(plan, chunks)
    ensures SizesFrom(chunks, missing)
    ensures forall k | 0 <= k < |chunks| :: LookedAtOne(chunks[k].encodedHash, missing, skip, seen, files)
    ensures (touched + (plan.wanted.Keys - skip)) * plan.wanted.Keys <= seen
  {
    forall h | h in plan.wanted && h !in skip ensures h in seen {
      assert HasHash(chunks, h);
      var k :| 0 <= k < |chunks| && chunks[k].encodedHash == h;
      assert LookedAtOne(chunks[k].encodedHash, missing, skip, seen, files);
    }
  }

  /** The plan wants exactly these chunks. */
  ghost predicate Plans(plan: Plan, chunks: seq<ChunkRef>) {
    && (forall h :: h in plan.wanted <==> HasHash(chunks, h))
    && forall k | 0 <= k < |chunks| ::
         chunks[k].encodedHash in plan.wanted && plan.wanted[chunks[k].encodedHash] == chunks[k].encodedSize
  }

  lemma TouchedEnough(entries: Entries, pinned: set<Hash>, limit: nat, plan: Plan, more: set<Hash>, fewer: set<Hash>)
    requires Roomy(entries, pinned, limit, plan, more) && fewer * plan.wanted.Keys <= more
    ensures Roomy(entries, pinned, limit, plan, fewer)
  {
  }

  /** One task: the chunk is in the cache, or it is fetched from a location that was resolved before. */
  method RunTask(cache: Cache.ChunkCache, chunk: ChunkRef, prepared: set<Hash>, locations: set<Hash>, network: Network,
                 now: int, ghost plan: Plan)
    returns (end: TaskEnd, cached: bool)
    requires CacheOk(cache) && IsHash(chunk.encodedHash) && ServesChunk(network, cache.hash, chunk)
    requires chunk.encodedHash in plan.wanted && plan.wanted[chunk.encodedHash] == chunk.encodedSize
    modifies cache`files, cache`entries, cache`currentBytes
    ensures CacheOk(cache) && cached == (chunk.encodedHash in old(cache.files))
    ensures end == EndOf(chunk.encodedHash, prepared, locations, network, cached)
    ensures cache.files.Keys <= old(cache.files).Keys + {chunk.encodedHash}
    ensures old(HasRoom(cache, plan, plan.wanted.Keys)) && now >= plan.start ==>
              && HasRoom(cache, plan, plan.wanted.Keys) && (end.Ended? ==> chunk.encodedHash in cache.files)
              && forall h | h in plan.wanted && h in old(cache.files) :: h in cache.files
  {
    hide Roomy, TotalSize, Pass;
    var h := chunk.encodedHash;
    ghost var before := cache.entries;
    var found := cache.Read(h, now);
    cached := found.value.Some?;
    ghost var good := old(HasRoom(cache, plan, plan.wanted.Keys)) && now >= plan.start;
    if good {
      ReadKeepsRoom(before, cache.pinned, cache.maxBytes, plan, plan.wanted.Keys, h, now);
      assert plan.wanted.Keys + {h} == plan.wanted.Keys;
    }
    if cached {
      return Ended(if h in prepared then FromPack else FromCache), true;
    }
    if h !in locations {
      return NoLocation, false;
    }
    var served := network.served(h);
    if served.None? {
      return FetchFailed, false;
    }
    ghost var victims;
    var error, left;
    ghost var held := cache.entries;
    error, left, victims := cache.PutFile(h, Some(served.value.bytes), now);
    if good {
      PutKeepsRoom(held, cache.pinned, cache.maxBytes, plan, h, now, victims, cache.entries);
    }
    return Ended(Fetched(served.value.networkBytes)), false;
  }

  /** All tasks, in whatever turns; between two of them others may use the cache. */
  method RunTasksOnCache(cache: Cache.ChunkCache, chunks: seq<ChunkRef>, prepared: set<Hash>, locations: set<Hash>,
                         network: Network, turns: seq<nat>, alone: bool, now: int, ghost plan: Plan)
    returns (ends: seq<TaskEnd>, looked: seq<bool>)
    requires CacheOk(cache) && AllHashes(chunks) && HashesDiffer(chunks) && Plans(plan, chunks)
    requires ServesTrue(network, cache.hash, chunks) && Permutes(turns, |chunks|)
    modifies cache`files, cache`entries, cache`currentBytes
    ensures CacheOk(cache) && EndsAsFound(chunks, prepared, locations, network, looked, ends)
    ensures |ends| == |looked| == |chunks|
    ensures alone ==> FoundWasThere(chunks, looked, old(cache.files))
    ensures alone && old(HasRoom(cache, plan, plan.wanted.Keys)) && now >= plan.start ==>
              && (forall h | h in plan.wanted && h in old(cache.files) :: h in cache.files)
              && (forall k | 0 <= k < |chunks| && chunks[k].encodedHash in old(cache.files) :: looked[k])
              && forall k | 0 <= k < |chunks| && ends[k].Ended? :: chunks[k].encodedHash in cache.files
  {
    hide Roomy, TotalSize, EndsAsFound, EndOf, ServesChunk, Plans, TasksSoFar, CacheOk, FoundWasThere, Permutes;
    ends, looked := seq(|chunks|, _ => NoLocation), seq(|chunks|, _ => false);
    ghost var good := alone && HasRoom(cache, plan, plan.wanted.Keys) && now >= plan.start;
    ghost var start := cache.files;
    ghost var offer := Offer(prepared, locations, network);
    NoTaskYet(chunks, offer, looked, ends, start, alone, good, plan);
    CountTurns(turns, |chunks|);
    for i := 0 to |turns|
      invariant CacheOk(cache) && |ends| == |looked| == |chunks| && |turns| == |chunks|
      invariant TasksSoFar(chunks, offer, turns[..i], looked, ends, start, cache.files, alone, good, plan)
      invariant good ==> HasRoom(cache, plan, plan.wanted.Keys)
    {
      Others(cache, alone);
      if !alone {
        OthersMayChange(chunks, offer, turns[..i], looked, ends, start, cache.files, good, plan);
      }
      Turn(turns, |chunks|, i);
      var k := turns[i];
      WantedBy(plan, chunks, k);
      ghost var before := cache.files;
      var end, cached := RunTask(cache, chunks[k], prepared, locations, network, now, plan);
      assert turns[..i + 1] == turns[..i] + [k];
      OneMoreTask(chunks, offer, turns[..i], k, looked, ends, start, before, cache.files, alone, good, plan, end,
                  cached);
      ends, looked := ends[k := end], looked[k := cached];
    }
    assert turns[..|turns|] == turns;
    AllTasks(chunks, offer, turns, looked, ends, start, cache.files, alone, good, plan);
  }

  /** What tasks are given. */
  datatype Offer = Offer(prepared: set<Hash>, locations: set<Hash>, network: Network)

  /**
   * The tasks that had their turn ended as they found; alone in the cache they found only what was there at the
   * start, and with room for all they found all of that, and left what they fetched.
   */
  ghost predicate TasksSoFar(chunks: seq<ChunkRef>, offer: Offer, turns: seq<nat>, looked: seq<bool>,
                             ends: seq<TaskEnd>,
                             start: map<Hash, Bytes>, files: map<Hash, Bytes>, alone: bool, good: bool, plan: Plan)
  {
    && |looked| == |ends| == |chunks|
    && (forall k | k in turns ::
          k < |chunks| && TaskDone(chunks[k], offer, looked[k], ends[k], start, files, alone, good))
    && (alone ==> forall k | 0 <= k < |chunks| && k !in turns && chunks[k].encodedHash in files ::
          chunks[k].encodedHash in start)
    && (good ==> alone && forall h | h in plan.wanted && h in start :: h in files)
  }

  ghost predicate TaskDone(chunk: ChunkRef, offer: Offer, looked: bool, end: TaskEnd, start: map<Hash, Bytes>,
                           files: map<Hash, Bytes>, alone: bool, good: bool)
  {
    && end == EndOf(chunk.encodedHash, offer.prepared, offer.locations, offer.network, looked)
    && (alone && looked ==> chunk.encodedHash in start)
    && (good && chunk.encodedHash in start ==> looked)
    && (good && end.Ended? ==> chunk.encodedHash in files)
  }

  lemma NoTaskYet(chunks: seq<ChunkRef>, offer: Offer, looked: seq<bool>, ends: seq<TaskEnd>, start: map<Hash, Bytes>,
                  alone: bool, good: bool, plan: Plan)
    requires |looked| == |ends| == |chunks| && (good ==> alone)
    ensures TasksSoFar(chunks, offer, [], looked, ends, start, start, alone, good, plan)
  {
  }

  lemma OthersMayChange(chunks: seq<ChunkRef>, offer: Offer, turns: seq<nat>, looked: seq<bool>, ends: seq<TaskEnd>,
                        start: map<Hash, Bytes>, files: map<Hash, Bytes>, good: bool, plan: Plan)
    requires exists earlier :: TasksSoFar(chunks, offer, turns, looked, ends, start, earlier, false, good, plan)
    ensures TasksSoFar(chunks, offer, turns, looked, ends, start, files, false, good, plan)
  {
    var earlier :| TasksSoFar(chunks, offer, turns, looked, ends, start, earlier, false, good, plan);
  }

  lemma OneMoreTask(chunks: seq<ChunkRef>, offer: Offer, turns: seq<nat>, k: nat, looked: seq<bool>, ends: seq<TaskEnd>,
                    start: map<Hash, Bytes>, before: map<Hash, Bytes>, after: map<Hash, Bytes>, alone: bool, good: bool,
                    plan: Plan, end: TaskEnd, cached: bool)
    requires TasksSoFar(chunks, offer, turns, looked, ends, start, before, alone, good, plan)
    requires k < |chunks| && k !in turns && HashesDiffer(chunks) && Plans(plan, chunks)
    requires cached == (chunks[k].encodedHash in before)
    requires end == EndOf(chunks[k].encodedHash, offer.prepared, offer.locations, offer.network, cached)
    requires after.Keys <= before.Keys + {chunks[k].encodedHash}
    requires good ==> (end.Ended? ==> chunks[k].encodedHash in after) && forall h | h in plan.wanted && h in before ::
              h in after
    ensures TasksSoFar(chunks, offer, turns + [k], looked[k := cached], ends[k := end], start, after, alone, good, plan)
  {
    hide EndOf;
    forall j | j in turns + [k]
      ensures j < |chunks|
      ensures TaskDone(chunks[j], offer, looked[k := cached][j], ends[k := end][j], start, after, alone, good)
    {
      WantedBy(plan, chunks, if j < |chunks| then j else k);
      if j == k {
        assert good && chunks[k].encodedHash in start ==> chunks[k].encodedHash in before;
      } else {
        assert j in turns;
      }
    }
  }

  lemma AllTasks(chunks: seq<ChunkRef>, offer: Offer, turns: seq<nat>, looked: seq<bool>, ends: seq<TaskEnd>,
                 start: map<Hash, Bytes>, files: map<Hash, Bytes>, alone: bool, good: bool, plan: Plan)
    requires TasksSoFar(chunks, offer, turns, looked, ends, start, files, alone, good, plan)
    requires Permutes(turns, |chunks|)
    ensures EndsAsFound(chunks, offer.prepared, offer.locations, offer.network, looked, ends)
    ensures alone ==> FoundWasThere(chunks, looked, start)
    ensures good ==>
              && (forall h | h in plan.wanted && h in start :: h in files)
              && (forall k | 0 <= k < |chunks| && chunks[k].encodedHash in start :: looked[k])
              && forall k | 0 <= k < |chunks| && ends[k].Ended? :: chunks[k].encodedHash in files
  {
    hide EndOf;
    forall k | 0 <= k < |chunks| ensures TaskDone(chunks[k], offer, looked[k], ends[k], start, files, alone, good) {
      assert k in turns;
    }
  }

  lemma Turn(turns: seq<nat>, count: nat, i: nat)
    requires Permutes(turns, count) && i < count
    ensures |turns| == count && turns[i] < count && turns[i] !in turns[..i]
  {
  }

  /** What a task finds in a cache that only tasks use was there before the first of them. */
  ghost predicate FoundWasThere(chunks: seq<ChunkRef>, looked: seq<bool>, files: map<Hash, Bytes>) {
    |looked| == |chunks| && forall k | 0 <= k < |chunks| && looked[k] :: chunks[k].encodedHash in files
  }

  lemma WantedBy(plan: Plan, chunks: seq<ChunkRef>, k: nat)
    requires Plans(plan, chunks) && k < |chunks|
    ensures chunks[k].encodedHash in plan.wanted && plan.wanted[chunks[k].encodedHash] == chunks[k].encodedSize
  {
  }

  lemma CountTurns(turns: seq<nat>, count: nat)
    requires Permutes(turns, count)
    ensures |turns| == count
  {
  }

  // ---- The whole download.

  /** What its caller, the manifest and the outside owe a download. */
  ghost predicate Begins(packs: PackDownloader, chunks: seq<ChunkRef>, network: Network, plan: Plan)
    reads packs, packs.cache
  {
    && CacheOk(packs.cache) && packs.prepared == {}
    && AllHashes(chunks) && HashesDiffer(chunks) && Plans(plan, chunks)
    && AnswersOnlyAsked(network) && ServesTrue(network, packs.cache.hash, chunks)
  }

  /** Alone in a cache with room for every chunk beside the pinned ones. */
  ghost predicate Undisturbed(cache: Cache.ChunkCache, plan: Plan, alone: bool, now: int)
    reads cache
  {
    alone && now >= plan.start && HasRoom(cache, plan, {})
  }

  /** Which packs were read, and that what was prepared came out of them; an exception hides what they cost. */
  ghost predicate PacksRead(packs: PackDownloader, network: Network, missing: map<Hash, nat>, sparse: bool,
                            failure: Option<PackFailure>, networkBytes: nat, used: seq<Pack>)
    reads packs
  {
    && Reads(missing, network.offered, network.fetched, missing.Keys - packs.prepared, sparse, network.threshold, used)
    && packs.AllSound(used, network.contents, missing, {})
    && networkBytes == if failure.None? then NetworkOf(network.fetched, used) else 0
  }

  /** What the packs did, for what was missing. */
  ghost predicate PacksDid(packs: PackDownloader, network: Network, missing: map<Hash, nat>, sparse: bool,
                           failure: Option<PackFailure>, networkBytes: nat)
    reads packs
  {
    && packs.prepared <= missing.Keys
    && (exists used: seq<Pack> :: PacksRead(packs, network, missing, sparse, failure, networkBytes, used))
    && (failure.None? ==>
         forall pack | pack in network.offered ::
           Settled(missing, pack, missing.Keys - packs.prepared, sparse, network.threshold))
    && (failure.Some? ==>
         exists pack | pack in network.offered ::
           packs.Fails(pack, network.fetched, network.contents, missing, failure.value))
  }

  lemma PacksDidAsRead(packs: PackDownloader, network: Network, missing: map<Hash, nat>, sparse: bool,
                       failure: Option<PackFailure>, networkBytes: nat, used: seq<Pack>)
    requires packs.prepared <= missing.Keys
    requires Reads(missing, network.offered, network.fetched, missing.Keys - packs.prepared, sparse, network.threshold,
                   used)
    requires packs.AllSound(used, network.contents, missing, {})
    requires (forall p | p in used :: p.hash in network.fetched)
             && networkBytes == if failure.None? then NetworkOf(network.fetched, used) else 0
    requires failure.None? ==>
               forall pack | pack in network.offered ::
                 Settled(missing, pack, missing.Keys - packs.prepared, sparse, network.threshold)
    requires failure.Some? ==>
               exists pack | pack in network.offered ::
                 packs.Fails(pack, network.fetched, network.contents, missing, failure.value)
    ensures PacksDid(packs, network, missing, sparse, failure, networkBytes)
  {
    hide PackDownloader.AllSound, PackDownloader.Fails, Settled;
    assert PacksRead(packs, network, missing, sparse, failure, networkBytes, used);
  }

  method CountPacks(counters: Counters, networkBytes: nat, logicalBytes: nat)
    modifies counters
    ensures counters.network == old(counters.network) + networkBytes
    ensures counters.disk == old(counters.disk) + logicalBytes
    ensures counters.prepared == old(counters.prepared) && counters.reusedBytes == old(counters.reusedBytes)
    ensures counters.downloadedChunks == old(counters.downloadedChunks)
    ensures counters.reusedChunks == old(counters.reusedChunks)
  {
    CounterValues(counters);
    counters.InterlockedAdd(Add(Counter.Network, networkBytes));
    counters.InterlockedAdd(Add(Disk, logicalBytes));
    CounterValues(counters);
  }

  /** Materializes what packs hold of the missing chunks. */
  method PackPhase(packs: PackDownloader, chunks: seq<ChunkRef>, network: Network, alone: bool, now: int,
                   ghost plan: Plan)
    returns (failure: Option<PackFailure>, missing: map<Hash, nat>, networkBytes: nat, logicalBytes: nat)
    requires Begins(packs, chunks, network, plan) && network.packsEnabled
    modifies packs`prepared, packs.cache`files, packs.cache`entries, packs.cache`currentBytes
    ensures CacheOk(packs.cache) && SizesFrom(chunks, missing)
    ensures alone ==> forall k | 0 <= k < |chunks| ::
              chunks[k].encodedHash in missing <==> chunks[k].encodedHash !in old(packs.cache.files)
    ensures PacksDid(packs, network, missing, |missing| < |chunks|, failure, networkBytes) && packs.Trimmed(missing)
    ensures logicalBytes == if failure.None? then Sum(SizesOf(missing, packs.prepared)) else 0
    ensures old(Undisturbed(packs.cache, plan, alone, now)) ==>
              && HasRoom(packs.cache, plan, plan.wanted.Keys)
              && forall h | h in packs.prepared :: h in packs.cache.files
  {
    hide Roomy, TotalSize, Splits, Settled, SizesFrom, Includes, Plans, ServesTrue, HashesDiffer;
    hide PackDownloader.Sound, PackDownloader.Fails, PackDownloader.Trimmed, PackDownloader.AllSound, Reads, NetworkOf;
    hide PacksRead, PacksDid;
    var cache := packs.cache;
    Others(cache, alone);
    missing := FindMissing(cache, chunks, {}, now, plan, {});
    assert {} + (plan.wanted.Keys - {}) == plan.wanted.Keys;
    MissingIsPlanned(plan, chunks, missing);
    Others(cache, alone);
    var requested, packBytes, chunkBytes;
    ghost var used;
    failure, requested, packBytes, chunkBytes, used :=
      packs.DownloadPacks(missing, network.offered, network.fetched, network.contents, |missing| < |chunks|,
                          network.threshold,
                          now, plan);
    SplitMeans(missing, requested, packs.prepared, chunkBytes);
    networkBytes, logicalBytes := 0, 0;
    if failure.None? {
      networkBytes, logicalBytes := packBytes, chunkBytes;
    }
    PacksDidAsRead(packs, network, missing, |missing| < |chunks|, failure, networkBytes, used);
    PreparedIsPlanned(plan, missing, packs.prepared);
  }

  lemma PreparedIsPlanned(plan: Plan, missing: map<Hash, nat>, prepared: set<Hash>)
    requires Includes(plan, missing) && prepared <= missing.Keys
    ensures forall h | h in prepared :: h in plan.wanted
  {
  }

  lemma MissingIsPlanned(plan: Plan, chunks: seq<ChunkRef>, missing: map<Hash, nat>)
    requires Plans(plan, chunks) && SizesFrom(chunks, missing)
    ensures Includes(plan, missing)
  {
    forall h | h in missing ensures h in plan.wanted && plan.wanted[h] == missing[h] {
      assert HasHash(chunks, h);
    }
  }

  lemma SplitMeans(sizes: map<Hash, nat>, requested: set<Hash>, prepared: set<Hash>, logicalBytes: nat)
    requires Splits(sizes, requested, prepared, logicalBytes)
    ensures prepared <= sizes.Keys && requested == sizes.Keys - prepared
    ensures logicalBytes == Sum(SizesOf(sizes, prepared))
  {
  }

  lemma CounterValues(counters: Counters)
    ensures counters.Value(Prepared) == counters.prepared && counters.Value(Counter.Network) == counters.network
    ensures counters.Value(Disk) == counters.disk && counters.Value(ReusedBytes) == counters.reusedBytes
    ensures counters.Value(DownloadedChunks) == counters.downloadedChunks
    ensures counters.Value(ReusedChunks) == counters.reusedChunks
  {
  }

  predicate AllEnded(ends: seq<TaskEnd>) {
    forall k | 0 <= k < |ends| :: ends[k].Ended?
  }

  /** The numbers of a report: every chunk is counted once, and all bytes are accounted for. */
  ghost predicate Balances(counters: Counters, report: Report, chunks: seq<ChunkRef>, endings: seq<Ending>,
                           brought: nat,
                           failure: Option<PackFailure>)
    reads counters
  {
    && report.totalBytes == EncodedTotal(chunks) && counters.prepared == report.totalBytes
    && counters.downloadedChunks + counters.reusedChunks == |chunks| && counters.reusedChunks == Count(endings, true)
    && counters.network == report.packNetworkBytes + FetchedTotal(endings)
    && |endings| == |chunks| && counters.reusedBytes == ReusedTotal(chunks, endings)
    && report.packLogicalBytes == (if failure.None? then brought else 0)
    && counters.disk + counters.reusedBytes + (if failure.None? then 0 else brought) == report.totalBytes
  }

  ghost predicate AllThere(chunks: seq<ChunkRef>, files: map<Hash, Bytes>) {
    forall k | 0 <= k < |chunks| :: chunks[k].encodedHash in files
  }

  /** Nothing pinned, nobody else, and less room than the packs have brought. */
  ghost predicate TooSmall(cache: Cache.ChunkCache, missing: map<Hash, nat>, prepared: set<Hash>, alone: bool)
    reads cache
  {
    alone && cache.pinned == {} && Sum(SizesOf(missing, prepared)) > cache.maxBytes
  }

  /**
   * Packs, then one task for each unique chunk. Each task ends as what it finds and was given a location for. If all
   * end well, prepared bytes equal total bytes, every chunk is counted once, and bytes written and reused make up the
   * total, but for what packs had brought before an exception. Alone and with room for all chunks beside the pinned
   * ones, no task lacks a location and every chunk of a successful download is in the cache. When the packs alone
   * bring more than the cache holds, some task lacks a location.
   */
  method Download(packs: PackDownloader, counters: Counters, manifestChunks: seq<ChunkRef>, network: Network,
                  turns: seq<nat>,
                  schedule: Schedule, alone: bool, now: int, ghost plan: Plan)
    returns (report: Option<Report>, failure: Option<PackFailure>, missing: map<Hash, nat>, asked: set<Hash>,
             ends: seq<TaskEnd>, looked: seq<bool>, ghost packBytes: nat)
    requires Begins(packs, Unique(manifestChunks), network, plan) && Permutes(turns, |Unique(manifestChunks)|)
    requires forall c :: counters.Value(c) == 0
    requires forall adds :: multiset(schedule(adds)) == multiset(adds)
    modifies counters, packs`prepared, packs.cache`files, packs.cache`entries, packs.cache`currentBytes
    ensures CacheOk(packs.cache)
    ensures SizesFrom(Unique(manifestChunks), missing)
    ensures network.packsEnabled ==>
              && PacksDid(packs, network, missing, |missing| < |Unique(manifestChunks)|, failure, packBytes)
              && (alone ==> forall k | 0 <= k < |Unique(manifestChunks)| ::
                   var h := Unique(manifestChunks)[k].encodedHash;
                   h in missing <==> h !in old(packs.cache.files))
    ensures failure == Some(Uncaught) ==> report.None?
    ensures failure != Some(Uncaught) ==>
              && EndsAsFound(Unique(manifestChunks), packs.prepared, network.resolver(asked), network, looked, ends)
              && asked !! packs.prepared && (report.Some? <==> AllEnded(ends))
    ensures report.Some? ==>
              && Balances(counters, report.value, Unique(manifestChunks), EndingsOf(ends),
                          Sum(SizesOf(missing, packs.prepared)), failure)
              && report.value.packNetworkBytes == packBytes
    ensures old(Undisturbed(packs.cache, plan, alone, now)) && failure != Some(Uncaught) ==>
              && (network.resolver(asked) == asked ==> !SomeTask(ends, NoLocation))
              && (report.Some? ==> AllThere(Unique(manifestChunks), packs.cache.files))
    ensures failure != Some(Uncaught) && TooSmall(packs.cache, missing, packs.prepared, alone) ==>
              SomeTask(ends, NoLocation)
  {
    hide Roomy, TotalSize, SizesFrom, PacksDid, EndsAsFound, Plans, HashesDiffer, AllHashes, ServesTrue, CacheOk,
        AnswersOnlyAsked;
    hide PackDownloader.Trimmed, Permutes, SomeTask, AllThere, Balances, LosesAChunk, SizesOf, Includes;
    var chunks := Unique(manifestChunks);
    report, asked, ends, looked := None, {}, [], [];
    CounterValues(counters);
    ghost var room, touched := Undisturbed(packs.cache, plan, alone, now), {};
    var networkBytes, logicalBytes;
    failure, missing, networkBytes, logicalBytes, touched :=
        FirstPhase(packs, counters, chunks, network, alone, now, plan);
    packBytes := networkBytes;
    if failure == Some(Uncaught) {
      return;
    }
    ghost var lost := TooSmall(packs.cache, missing, packs.prepared, alone);
    if lost {
      TooSmallLosesOne(packs, chunks, missing, alone);
    }
    asked, ends, looked := TaskPhase(packs.cache, chunks, packs.prepared, network, turns, alone, now, plan, touched);
    if !AllEnded(ends) {
      return;
    }
    GoodEndsAreConsistent(chunks, packs.prepared, network.resolver(asked), network, looked, ends);
    report := Conclude(counters, manifestChunks, missing, packs.prepared, EndingsOf(ends), schedule, failure,
                       networkBytes, logicalBytes);
  }

  /** The phase of packs, where it is enabled. */
  method FirstPhase(packs: PackDownloader, counters: Counters, chunks: seq<ChunkRef>, network: Network, alone: bool,
                    now: int,
                    ghost plan: Plan)
    returns (failure: Option<PackFailure>, missing: map<Hash, nat>, networkBytes: nat, logicalBytes: nat,
             ghost touched: set<Hash>)
    requires Begins(packs, chunks, network, plan)
    modifies counters, packs`prepared, packs.cache`files, packs.cache`entries, packs.cache`currentBytes
    ensures CacheOk(packs.cache) && SizesFrom(chunks, missing) && packs.prepared <= missing.Keys
    ensures packs.Trimmed(missing)
    ensures network.packsEnabled ==> PacksDid(packs, network, missing, |missing| < |chunks|, failure, networkBytes)
    ensures network.packsEnabled && alone ==> forall k | 0 <= k < |chunks| ::
              chunks[k].encodedHash in missing <==> chunks[k].encodedHash !in old(packs.cache.files)
    ensures logicalBytes == if failure.None? then Sum(SizesOf(missing, packs.prepared)) else 0
    ensures counters.network == old(counters.network) + networkBytes
    ensures counters.disk == old(counters.disk) + logicalBytes
    ensures counters.prepared == old(counters.prepared) && counters.reusedBytes == old(counters.reusedBytes)
    ensures counters.downloadedChunks == old(counters.downloadedChunks)
    ensures counters.reusedChunks == old(counters.reusedChunks)
    ensures (touched == {} && packs.prepared == {}) || touched == plan.wanted.Keys
    ensures old(Undisturbed(packs.cache, plan, alone, now)) ==>
              HasRoom(packs.cache, plan, touched) && forall h | h in packs.prepared :: h in packs.cache.files
  {
    hide Roomy, TotalSize, SizesFrom, Plans, PackDownloader.AllSound, Settled, PackDownloader.Fails;
    failure, missing, networkBytes, logicalBytes, touched := None, map[], 0, 0, {};
    if network.packsEnabled {
      failure, missing, networkBytes, logicalBytes := PackPhase(packs, chunks, network, alone, now, plan);
      CountPacks(counters, networkBytes, logicalBytes);
      touched := plan.wanted.Keys;
    } else {
      NothingMissing(chunks);
    }
  }

  /** The end of a download whose tasks all ended well. */
  method Conclude(counters: Counters, manifestChunks: seq<ChunkRef>, missing: map<Hash, nat>, prepared: set<Hash>,
                  endings: seq<Ending>, schedule: Schedule, failure: Option<PackFailure>, networkBytes: nat,
                      logicalBytes: nat)
    returns (report: Option<Report>)
    requires SizesFrom(Unique(manifestChunks), missing) && prepared <= missing.Keys
    requires Consistent(Unique(manifestChunks), endings, prepared)
    requires counters.prepared == counters.reusedBytes == counters.downloadedChunks == counters.reusedChunks == 0
    requires counters.network == networkBytes && counters.disk == logicalBytes
    requires logicalBytes == if failure.None? then Sum(SizesOf(missing, prepared)) else 0
    requires forall adds :: multiset(schedule(adds)) == multiset(adds)
    modifies counters
    ensures report.Some? && report.value.packNetworkBytes == networkBytes
    ensures Balances(counters, report.value, Unique(manifestChunks), endings, Sum(SizesOf(missing, prepared)), failure)
  {
    var chunks := Unique(manifestChunks);
    UniqueCovers(manifestChunks);
    PreparedIsFound(missing, prepared, chunks, endings);
    var totalBytes := counters.RunTasks(schedule(AllAdds(chunks, endings)), manifestChunks, endings);
    report := Some(Report(totalBytes, networkBytes, logicalBytes));
  }

  /** Asks for what neither packs nor the cache have, and runs the tasks. */
  method TaskPhase(cache: Cache.ChunkCache, chunks: seq<ChunkRef>, prepared: set<Hash>, network: Network,
                   turns: seq<nat>,
                   alone: bool, now: int, ghost plan: Plan, ghost touched: set<Hash>)
    returns (asked: set<Hash>, ends: seq<TaskEnd>, looked: seq<bool>)
    requires CacheOk(cache) && AllHashes(chunks) && HashesDiffer(chunks) && Plans(plan, chunks)
    requires ServesTrue(network, cache.hash, chunks) && Permutes(turns, |chunks|)
    requires (touched == {} && prepared == {}) || touched == plan.wanted.Keys
    modifies cache`files, cache`entries, cache`currentBytes
    ensures CacheOk(cache) && asked !! prepared && (AnswersOnlyAsked(network) ==> network.resolver(asked) <= asked)
    ensures EndsAsFound(chunks, prepared, network.resolver(asked), network, looked, ends)
    ensures alone ==> forall k | 0 <= k < |chunks| ::
              chunks[k].encodedHash in asked <==> chunks[k].encodedHash !in prepared + old(cache.files).Keys
    ensures forall h | h in asked :: exists k | 0 <= k < |chunks| :: chunks[k].encodedHash == h
    ensures alone && old(HasRoom(cache, plan, touched)) && now >= plan.start &&
              (forall h | h in prepared :: h in old(cache.files)) ==>
              && (network.resolver(asked) == asked ==> !SomeTask(ends, NoLocation))
              && (AllEnded(ends) ==> AllThere(chunks, cache.files))
    ensures alone && AnswersOnlyAsked(network) && LosesAChunk(chunks, prepared, old(cache.files)) ==>
              SomeTask(ends, NoLocation)
  {
    hide Roomy, TotalSize, SizesFrom, EndsAsFound, Plans, HashesDiffer, AllHashes, ServesTrue, FoundWasThere, Permutes;
    hide AnswersOnlyAsked, LosesAChunk, SomeTask;
    Others(cache, alone);
    var unresolved := FindMissing(cache, chunks, prepared, now, plan, touched);
    AskedAreMissing(chunks, unresolved, prepared, cache.files);
    AnswerIsAsked(network, unresolved.Keys);
    asked := unresolved.Keys;
    ghost var start := cache.files;
    assert touched + (plan.wanted.Keys - prepared) == plan.wanted.Keys;
    ends, looked := RunTasksOnCache(cache, chunks, prepared, network.resolver(asked), network, turns, alone, now, plan);
    if alone {
      if AnswersOnlyAsked(network) && LosesAChunk(chunks, prepared, start) {
        LostChunkLacksLocation(chunks, prepared, asked, network, looked, ends, start);
      }
      if (forall k | 0 <= k < |chunks| && chunks[k].encodedHash in start :: looked[k]) &&
          network.resolver(asked) == asked
         && forall h | h in prepared :: h in start {
        FoundNeedsNoLocation(chunks, prepared, asked, network, looked, ends, start);
      }
    }
  }

  /** A chunk that a pack brought is not in the cache. */
  ghost predicate LosesAChunk(chunks: seq<ChunkRef>, prepared: set<Hash>, files: map<Hash, Bytes>) {
    exists k | 0 <= k < |chunks| :: chunks[k].encodedHash in prepared && chunks[k].encodedHash !in files
  }

  lemma AnswerIsAsked(network: Network, asked: set<Hash>)
    ensures AnswersOnlyAsked(network) ==> network.resolver(asked) <= asked
  {
  }

  lemma AskedAreMissing(chunks: seq<ChunkRef>, unresolved: map<Hash, nat>, prepared: set<Hash>, files: map<Hash, Bytes>)
    requires SizesFrom(chunks, unresolved)
    requires forall k | 0 <= k < |chunks| ::
               var h := chunks[k].encodedHash;
               h in unresolved <==> h !in prepared && h !in files
    ensures unresolved.Keys !! prepared
    ensures forall h | h in unresolved :: exists k | 0 <= k < |chunks| :: chunks[k].encodedHash == h
  {
    forall h | h in unresolved ensures h !in prepared {
      assert HasHash(chunks, h);
    }
  }

  lemma LostChunkLacksLocation(chunks: seq<ChunkRef>, prepared: set<Hash>, asked: set<Hash>, network: Network,
                               looked: seq<bool>, ends: seq<TaskEnd>, start: map<Hash, Bytes>)
    requires EndsAsFound(chunks, prepared, network.resolver(asked), network, looked, ends) && asked !! prepared
    requires FoundWasThere(chunks, looked, start) && AnswersOnlyAsked(network) && LosesAChunk(chunks, prepared, start)
    ensures SomeTask(ends, NoLocation)
  {
    var k :| 0 <= k < |chunks| && chunks[k].encodedHash in prepared && chunks[k].encodedHash !in start;
    assert network.resolver(asked) <= asked;
    assert ends[k] == NoLocation;
  }

  lemma FoundNeedsNoLocation(chunks: seq<ChunkRef>, prepared: set<Hash>, asked: set<Hash>, network: Network,
                             looked: seq<bool>, ends: seq<TaskEnd>, start: map<Hash, Bytes>)
    requires EndsAsFound(chunks, prepared, asked, network, looked, ends)
    requires forall k | 0 <= k < |chunks| && chunks[k].encodedHash in start :: looked[k]
    requires forall k | 0 <= k < |chunks| && chunks[k].encodedHash !in asked :: chunks[k].encodedHash in start
    ensures !SomeTask(ends, NoLocation)
  {
    NoLocationIff(chunks, prepared, asked, network, looked, ends);
  }

  lemma TooSmallLosesOne(packs: PackDownloader, chunks: seq<ChunkRef>, missing: map<Hash, nat>, alone: bool)
    requires packs.Trimmed(missing) && packs.prepared <= missing.Keys && SizesFrom(chunks, missing)
    requires CacheOk(packs.cache)
    requires TooSmall(packs.cache, missing, packs.prepared, alone)
    ensures LosesAChunk(chunks, packs.prepared, packs.cache.files)
  {
    PreparedIsNotAllThere(packs, missing);
    var h :| h in packs.prepared && h !in packs.cache.files;
    assert HasHash(chunks, h);
  }

  lemma PreparedIsNotAllThere(packs: PackDownloader, missing: map<Hash, nat>)
    requires packs.Trimmed(missing) && packs.prepared <= missing.Keys && packs.cache.pinned == {}
    requires packs.cache.Indexed()
    requires Sum(SizesOf(missing, packs.prepared)) > packs.cache.maxBytes
    ensures exists h :: h in packs.prepared && h !in packs.cache.files
  {
    var prepared, entries := packs.prepared, packs.cache.entries;
    assert prepared == {} ==> SizesOf(missing, prepared) == map[];
    var h :| h in prepared;
    assert h in entries ==> h in entries.Keys;
    if forall g | g in prepared :: g in entries {
      SumMonotone(SizesOf(missing, prepared), Sizes(entries));
    }
  }

  lemma NothingMissing(chunks: seq<ChunkRef>)
    ensures SizesFrom(chunks, map[]) && SizesOf(map[], {}) == map[]
  {
  }

  // ---- From a full cache to an installed build.

  /**
   * A cache that holds every chunk of a build, each under its digest, rebuilds every file as the build's own objects
   * do, so an installation from it never stops for a missing chunk.
   */
  lemma DownloadedIsRebuildable(codec: Codec, objects: map<Hash, Bytes>, files: seq<FileRecipe>,
                                manifestChunks: seq<ChunkRef>,
                                cached: map<Hash, Bytes>)
    requires Rebuildable(codec, objects, files) && CollisionFree(codec.hash, cached.Values + objects.Values)
    requires (forall h | h in cached :: codec.hash(cached[h]) == h) && forall c | c in ChunksOf(files) ::
              c in manifestChunks
    requires AllThere(Unique(manifestChunks), cached)
    ensures Rebuildable(codec, cached, files)
    ensures forall f | f in files :: Rebuild(codec, cached, f) == Rebuild(codec, objects, f)
  {
    forall f | f in files ensures Rebuild(codec, cached, f).Some? &&
        Rebuild(codec, cached, f) == Rebuild(codec, objects, f) {
      forall c | c in f.chunks ensures c.encodedHash in cached {
        assert c in ChunksOf(files);
        ChunkIsThere(manifestChunks, c, cached);
      }
      AssemblesAlike(codec, objects, cached, f.chunks);
    }
  }

  lemma ChunkIsThere(manifestChunks: seq<ChunkRef>, c: ChunkRef, cached: map<Hash, Bytes>)
    requires c in manifestChunks && AllThere(Unique(manifestChunks), cached)
    ensures c.encodedHash in cached
  {
    UniqueCovers(manifestChunks);
    assert HasHash(manifestChunks, c.encodedHash);
    assert HasHash(Unique(manifestChunks), c.encodedHash);
  }

  lemma {:induction false} AssemblesAlike(codec: Codec, objects: map<Hash, Bytes>, cached: map<Hash, Bytes>,
                                          chunks: seq<ChunkRef>)
    requires Assemble(codec, objects, chunks).Some? && CollisionFree(codec.hash, cached.Values + objects.Values)
    requires (forall h | h in cached :: codec.hash(cached[h]) == h) && forall c | c in chunks :: c.encodedHash in cached
    ensures Assemble(codec, cached, chunks) == Assemble(codec, objects, chunks)
  {
    if chunks == [] {
      assert Assemble(codec, cached, chunks) == Some([]);
    } else {
      var h := chunks[0].encodedHash;
      assert chunks[0] in chunks;
      assert h in objects && codec.hash(objects[h]) == h;
      assert cached[h] in cached.Values && objects[h] in objects.Values;
      AssemblesAlike(codec, objects, cached, chunks[1..]);
    }
  }

  // ---- Two chunks of one byte each, and one pack that offers both.

  function ByteChunk(h: Hash): ChunkRef {
    ChunkRef(h, 1, h, 1, ObjectKey(h))
  }

  function BothInOnePack(first: Hash, second: Hash): Pack {
    Pack("pack", 10, [first, second], 1, false)
  }

  /** Its second chunk may be damaged; chunks can be fetched one by one as well. */
  function TwoChunkNetwork(first: Hash, second: Hash, damaged: bool): Network {
    Outside(
      true, [BothInOnePack(first, second)], map["pack" := 10],
      (pack, h) => if h == first then Chunk([1]) else if damaged then Corrupt else Chunk([2]),
      0.0, (asked: set<Hash>) => asked,
      h => if h == first then Some(Served([1], 1)) else if h == second then Some(Served([2], 1)) else None)
  }

  ghost predicate TwoBytes(hash: Bytes -> Hash, first: Hash, second: Hash) {
    IsHash(first) && IsHash(second) && first != second && hash([1]) == first && hash([2]) == second
  }

  ghost function TwoChunkPlan(first: Hash, second: Hash): Plan {
    Plan(map[first := 1, second := 1], map[first := 1, second := 1], 0)
  }

  lemma UniqueOfTwo(a: ChunkRef, b: ChunkRef)
    requires a.encodedHash != b.encodedHash
    ensures Unique([a, b]) == [a, b]
  {
    assert [a, b][..1] == [a] && [a][..0] == [];
    assert Unique([a]) == [] + [a];
  }

  lemma SumOfTwo(first: Hash, second: Hash)
    requires first != second
    ensures Sum(map[first := 1, second := 1]) == 2 && Sum(map[first := 1]) == 1
  {
    var none: map<Hash, nat> := map[];
    SumInsert(none, first, 1);
    SumInsert(map[first := 1], second, 1);
    assert map[first := 1][second := 1] == map[first := 1, second := 1];
  }

  function TwoChunks(first: Hash, second: Hash): seq<ChunkRef> {
    [ByteChunk(first), ByteChunk(second)]
  }

  lemma TwoChunksBegin(packs: PackDownloader, first: Hash, second: Hash, damaged: bool)
    requires TwoBytes(packs.cache.hash, first, second) && CacheOk(packs.cache) && packs.prepared == {}
    ensures Unique(TwoChunks(first, second)) == TwoChunks(first, second) && Permutes([0, 1], 2)
    ensures Begins(packs, TwoChunks(first, second), TwoChunkNetwork(first, second, damaged),
                   TwoChunkPlan(first, second))
  {
    hide Plans, ServesTrue, CacheOk, HashesDiffer, AllHashes, Permutes, TwoChunkNetwork;
    var chunks := TwoChunks(first, second);
    UniqueOfTwo(chunks[0], chunks[1]);
    TwoTurns();
    TwoChunksPlanned(packs.cache.hash, first, second);
    TwoChunksServed(packs.cache.hash, first, second, damaged);
  }

  lemma TwoTurns()
    ensures Permutes([0, 1], 2)
  {
    assert [0, 1][0] == 0 && [0, 1][1] == 1;
  }

  lemma TwoChunksPlanned(hash: Bytes -> Hash, first: Hash, second: Hash)
    requires TwoBytes(hash, first, second)
    ensures
      var chunks := TwoChunks(first, second);
      Plans(TwoChunkPlan(first, second), chunks) && HashesDiffer(chunks) && AllHashes(chunks)
  {
    var chunks := TwoChunks(first, second);
    assert chunks[0].encodedHash == first && chunks[1].encodedHash == second;
  }

  lemma TwoChunksServed(hash: Bytes -> Hash, first: Hash, second: Hash, damaged: bool)
    requires TwoBytes(hash, first, second)
    ensures
      var network := TwoChunkNetwork(first, second, damaged);
      ServesTrue(network, hash, TwoChunks(first, second)) && AnswersOnlyAsked(network)
  {
    var chunks := TwoChunks(first, second);
    assert chunks[0].encodedHash == first && chunks[1].encodedHash == second;
  }

  lemma BothMissing(first: Hash, second: Hash, missing: map<Hash, nat>)
    requires SizesFrom(TwoChunks(first, second), missing)
    requires forall k | 0 <= k < 2 :: TwoChunks(first, second)[k].encodedHash in missing
    ensures missing == map[first := 1, second := 1]
  {
    var chunks := TwoChunks(first, second);
    assert chunks[0].encodedHash == first && chunks[1].encodedHash == second;
    forall h | h in missing ensures h == first || h == second {
      assert HasHash(chunks, h);
    }
  }

  lemma PreparedIsOffered(packs: PackDownloader, network: Network, missing: map<Hash, nat>, sparse: bool,
                          failure: Option<PackFailure>, networkBytes: nat)
    requires PacksDid(packs, network, missing, sparse, failure, networkBytes)
    ensures packs.AllSound(network.offered, network.contents, missing, {})
  {
    hide PackDownloader.AllSound, Settled, PackDownloader.Fails;
    var used :| PacksRead(packs, network, missing, sparse, failure, networkBytes, used);
    packs.SoundInMore(used, network.offered, network.contents, missing);
  }

  /** Of the one pack, the first chunk is prepared, and the second exactly if it is not damaged. */
  lemma PackOutcome(packs: PackDownloader, first: Hash, second: Hash, damaged: bool, missing: map<Hash, nat>,
                    sparse: bool, failure: Option<PackFailure>, networkBytes: nat)
    requires TwoBytes(packs.cache.hash, first, second) && missing == map[first := 1, second := 1]
    requires PacksDid(packs, TwoChunkNetwork(first, second, damaged), missing, sparse, failure, networkBytes)
    ensures !damaged ==> failure.None? && packs.prepared == {first, second}
    ensures damaged ==> failure == Some(Caught) && packs.prepared == {first}
  {
    hide PacksRead;
    var network, pack := TwoChunkNetwork(first, second, damaged), BothInOnePack(first, second);
    assert pack.chunkHashes[0] == first && pack.chunkHashes[1] == second;
    assert packs.Sound(pack, network.contents, missing, first);
    assert packs.Sound(pack, network.contents, missing, second) <==> !damaged;
    PreparedIsOffered(packs, network, missing, sparse, failure, networkBytes);
    assert second in packs.prepared ==> second in packs.prepared - {};
    assert second in packs.prepared ==> packs.Sound(pack, network.contents, missing, second);
    if failure.Some? {
      assert packs.Fails(pack, network.fetched, network.contents, missing, failure.value);
      var k :| 0 <= k < 2 && packs.FailsAt(pack, pack.chunkHashes, network.contents, missing, failure.value, k);
      assert k == 1;
      assert pack.chunkHashes[0] in packs.prepared;
    } else {
      assert pack in network.offered;
      assert Settled(missing, pack, missing.Keys - packs.prepared, sparse, network.threshold);
      assert first in pack.chunkHashes && second in pack.chunkHashes;
      assert first in packs.prepared && second in packs.prepared;
    }
  }

  /** Downloads both chunks into an empty cache that nobody else uses. */
  method DownloadTwo(hash: Bytes -> Hash, maxBytes: nat, first: Hash, second: Hash, damaged: bool)
    returns (failure: Option<PackFailure>, prepared: set<Hash>, ends: seq<TaskEnd>, report: Option<Report>,
             counters: Counters)
    requires TwoBytes(hash, first, second)
    ensures !damaged ==> failure.None? && prepared == {first, second}
    ensures damaged ==> failure == Some(Caught) && prepared == {first}
    ensures (if damaged then 1 else 2) > maxBytes ==> SomeTask(ends, NoLocation)
    ensures maxBytes >= 2 ==> AllEnded(ends)
    ensures report.Some? <==> AllEnded(ends)
    ensures report.Some? ==>
              report.value.totalBytes == 2 && counters.disk + counters.reusedBytes == if damaged then 1 else 2
  {
    hide TwoBytes, SomeTask, TwoChunks, EndsAsFound, TwoChunkNetwork, Balances, SizesOf;
    var missing, asked, looked;
    report, failure, missing, prepared, asked, ends, looked, counters :=
        CallDownload(hash, maxBytes, first, second, damaged);
    BroughtOfTwo(hash, first, second, missing, prepared);
    if maxBytes >= 2 {
      BothEnd(first, second, damaged, prepared, asked, looked, ends);
    }
    if report.Some? {
      TwoBalance(counters, report.value, first, second, damaged, EndingsOf(ends), Sum(SizesOf(missing, prepared)),
                 failure);
    }
  }

  method CallDownload(hash: Bytes -> Hash, maxBytes: nat, first: Hash, second: Hash, damaged: bool)
    returns (report: Option<Report>, failure: Option<PackFailure>, missing: map<Hash, nat>, prepared: set<Hash>,
             asked: set<Hash>, ends: seq<TaskEnd>, looked: seq<bool>, counters: Counters)
    requires TwoBytes(hash, first, second)
    ensures missing == map[first := 1, second := 1]
    ensures !damaged ==> failure.None? && prepared == {first, second}
    ensures damaged ==> failure == Some(Caught) && prepared == {first}
    ensures EndsAsFound(TwoChunks(first, second), prepared, asked, TwoChunkNetwork(first, second, damaged), looked,
                        ends)
    ensures report.Some? <==> AllEnded(ends)
    ensures report.Some? ==>
              Balances(counters, report.value, TwoChunks(first, second), EndingsOf(ends),
                       Sum(SizesOf(missing, prepared)), failure)
    ensures maxBytes >= 2 ==> !SomeTask(ends, NoLocation)
    ensures Sum(SizesOf(missing, prepared)) > maxBytes ==> SomeTask(ends, NoLocation)
  {
    hide TwoBytes, Begins, Permutes, PacksDid, SizesFrom, SomeTask, TwoChunks, EndsAsFound, Roomy, Undisturbed;
    hide TwoChunkNetwork, TwoChunkPlan, CacheOk, AllThere, Unique, SizesOf, Balances;
    var cache := new Cache.ChunkCache(hash, maxBytes, map[]);
    var packs := new PackDownloader(cache);
    counters := new Counters();
    EmptyIsOk(cache);
    NetworkOfTwo(first, second, damaged);
    TwoChunksBegin(packs, first, second, damaged);
    EmptyHasRoom(cache, first, second);
    ghost var packBytes;
    report, failure, missing, asked, ends, looked, packBytes :=
      Download(packs, counters, TwoChunks(first, second), TwoChunkNetwork(first, second, damaged), [0, 1], adds => adds,
               true, 0,
               TwoChunkPlan(first, second));
    prepared := packs.prepared;
    BothMissing(first, second, missing);
    PackOutcome(packs, first, second, damaged, missing, |missing| < 2, failure, packBytes);
  }

  lemma BroughtOfTwo(hash: Bytes -> Hash, first: Hash, second: Hash, missing: map<Hash, nat>, prepared: set<Hash>)
    requires TwoBytes(hash, first, second) && missing == map[first := 1, second := 1]
    ensures prepared == {first} ==> Sum(SizesOf(missing, prepared)) == 1
    ensures prepared == {first, second} ==> Sum(SizesOf(missing, prepared)) == 2
  {
    SumOfTwo(first, second);
    assert prepared == {first} ==> SizesOf(missing, prepared) == map[first := 1];
    assert prepared == {first, second} ==> SizesOf(missing, prepared) == missing;
  }

  lemma TwoBalance(counters: Counters, report: Report, first: Hash, second: Hash, damaged: bool, endings: seq<Ending>,
                   brought: nat, failure: Option<PackFailure>)
    requires Balances(counters, report, TwoChunks(first, second), endings, brought, failure)
    requires failure.Some? == damaged && brought == if damaged then 1 else 2
    ensures report.totalBytes == 2 && counters.disk + counters.reusedBytes == if damaged then 1 else 2
  {
    TotalOfTwo(first, second);
  }

  /** A cache of one byte: the second chunk brought evicts one of the two, whose task then lacks a location. */
  method CacheTooSmall(hash: Bytes -> Hash, first: Hash, second: Hash)
    returns (failure: Option<PackFailure>, prepared: set<Hash>, ends: seq<TaskEnd>, report: Option<Report>)
    requires TwoBytes(hash, first, second)
    ensures failure.None? && prepared == {first, second} && SomeTask(ends, NoLocation) && report.None?
  {
    var counters;
    failure, prepared, ends, report, counters := DownloadTwo(hash, 1, first, second, false);
  }

  /** The first chunk is brought before an exception over the second: its byte is in no count of bytes. */
  method ExceptionAfterOne(hash: Bytes -> Hash, first: Hash, second: Hash)
    returns (failure: Option<PackFailure>, prepared: set<Hash>, report: Option<Report>, disk: nat, reusedBytes: nat)
    requires TwoBytes(hash, first, second)
    ensures failure == Some(Caught) && prepared == {first}
    ensures report.Some? && report.value.totalBytes == 2 && disk + reusedBytes == 1
  {
    var counters, ends;
    failure, prepared, ends, report, counters := DownloadTwo(hash, 100, first, second, true);
    disk, reusedBytes := counters.disk, counters.reusedBytes;
  }

  lemma BothEnd(first: Hash, second: Hash, damaged: bool, prepared: set<Hash>, asked: set<Hash>, looked: seq<bool>,
                ends: seq<TaskEnd>)
    requires EndsAsFound(TwoChunks(first, second), prepared, asked, TwoChunkNetwork(first, second, damaged), looked,
                         ends)
    requires !SomeTask(ends, NoLocation)
    ensures AllEnded(ends)
  {
    var chunks := TwoChunks(first, second);
    assert chunks[0].encodedHash == first && chunks[1].encodedHash == second;
    forall k | 0 <= k < |ends| ensures ends[k].Ended? {
      assert k == 0 || k == 1;
      assert ends[k] != NoLocation;
    }
  }

  lemma TotalOfTwo(first: Hash, second: Hash)
    ensures EncodedTotal(TwoChunks(first, second)) == 2
  {
    var chunks := TwoChunks(first, second);
    assert chunks[1..] == [ByteChunk(second)] && [ByteChunk(second)][1..] == [];
    assert EncodedTotal([ByteChunk(second)]) == 1;
  }

  lemma EmptyHasRoom(cache: Cache.ChunkCache, first: Hash, second: Hash)
    requires cache.entries == map[] && TwoBytes(cache.hash, first, second)
    ensures cache.maxBytes >= 2 ==> Undisturbed(cache, TwoChunkPlan(first, second), true, 0)
  {
    SumOfTwo(first, second);
  }

  lemma EmptyIsOk(cache: Cache.ChunkCache)
    requires cache.Valid() && cache.files == map[] && cache.entries == map[]
    ensures CacheOk(cache)
  {
  }

  lemma NetworkOfTwo(first: Hash, second: Hash, damaged: bool)
    ensures
      var network := TwoChunkNetwork(first, second, damaged);
      network.packsEnabled && forall asked :: network.resolver(asked) == asked
    ensures |TwoChunks(first, second)| == 2
  {
  }
}
