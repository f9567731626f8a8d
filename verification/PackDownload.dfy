/** Materializing missing chunks from whole packs before they are asked for one by one. */
module PackDownload {
  import opened CacheRoom
  import opened Common
  import opened Eviction
  import opened Manifests
  import opened MapSums
  import opened Sorting
  import Cache = ChunkCache
  import Ordinal

  /** A pack that the server offers for some chunks; `ranged` when one of its sources can serve parts. */
  datatype Pack = Pack(hash: Hash, encodedSize: nat, chunkHashes: seq<Hash>, sources: nat, ranged: bool)

  /** What reading one chunk out of one pack gives, once that pack is here. */
  datatype PackRead = Chunk(bytes: Bytes) | Corrupt | Absent

  type PackContents = (Hash, Hash) -> PackRead

  /** An exception among the packs; the caller catches all but the one for an announced chunk that is not there. */
  datatype PackFailure = Caught | Uncaught

  predicate PackOrder(a: Pack, b: Pack) {
    a.encodedSize < b.encodedSize || (a.encodedSize == b.encodedSize && Ordinal.Le(a.hash, b.hash))
  }

  function Covered(pack: Pack, requested: set<Hash>): seq<Hash> {
    CoveredFrom(pack.chunkHashes, requested)
  }

  function CoveredFrom(hashes: seq<Hash>, requested: set<Hash>): (covered: seq<Hash>)
    ensures forall h | h in covered :: h in requested
  {
    if hashes == [] then [] else (if hashes[0] in requested then [hashes[0]] else []) + CoveredFrom(hashes[1..],
            requested)
  }

  function CoveredBytes(sizes: map<Hash, nat>, covered: seq<Hash>): nat
    requires forall h | h in covered :: h in sizes
  {
    if covered == [] then 0 else sizes[covered[0]] + CoveredBytes(sizes, covered[1..])
  }

  /** Whether a pack is left to the relay that serves single chunks. */
  predicate LeftToRelay(pack: Pack, coveredBytes: nat, allowSparse: bool, threshold: real) {
    && allowSparse && threshold > 0.0 && pack.encodedSize > 0 && pack.ranged
    && (coveredBytes as real) / (pack.encodedSize as real) < threshold
  }

  /** A pack has something of what is wanted. */
  ghost predicate Wants(pack: Pack, wanted: set<Hash>) {
    exists h | h in pack.chunkHashes :: h in wanted
  }

  /** What is wanted of a pack is less than this part of it, and the relay may serve it piece by piece. */
  ghost predicate TooSparse(sizes: map<Hash, nat>, pack: Pack, wanted: set<Hash>, allowSparse: bool, threshold: real)
    requires wanted <= sizes.Keys
  {
    && allowSparse && 0.0 < threshold && pack.ranged && pack.encodedSize > 0
    && CoveredBytes(sizes, Covered(pack, wanted)) as real < threshold * (pack.encodedSize as real)
  }

  lemma RelayIff(sizes: map<Hash, nat>, pack: Pack, wanted: set<Hash>, allowSparse: bool, threshold: real)
    requires wanted <= sizes.Keys
    ensures LeftToRelay(pack, CoveredBytes(sizes, Covered(pack, wanted)), allowSparse, threshold) <==>
            TooSparse(sizes, pack, wanted, allowSparse, threshold)
  {
    if pack.encodedSize > 0 {
      RatioBelow(CoveredBytes(sizes, Covered(pack, wanted)) as real, pack.encodedSize as real, threshold);
    }
  }

  lemma RatioBelow(part: real, whole: real, threshold: real)
    requires whole > 0.0
    ensures part / whole < threshold <==> part < threshold * whole
  {
    var ratio := part / whole;
    assert ratio * whole == part;
    if ratio < threshold {
      assert (threshold - ratio) * whole > 0.0;
    } else {
      assert (ratio - threshold) * whole >= 0.0;
    }
  }

  /** The bytes covered are the sizes of the wanted chunks among these. */
  lemma {:induction false} CoveredBytesMean(sizes: map<Hash, nat>, hashes: seq<Hash>, wanted: set<Hash>,
                                            both: set<Hash>)
    requires wanted <= sizes.Keys && Distinct(hashes) && forall h :: h in both <==> h in hashes && h in wanted
    ensures CoveredBytes(sizes, CoveredFrom(hashes, wanted)) == Sum(SizesOf(sizes, both))
  {
    hide Sum, SizesOf;
    if hashes == [] {
      assert both == {};
      NoSize(sizes);
    } else {
      var first, rest := hashes[0], hashes[1..];
      assert first !in rest && forall h :: h in hashes <==> h == first || h in rest;
      CoveredBytesMean(sizes, rest, wanted, both - {first});
      CoveredStep(hashes, wanted);
      if first in wanted {
        assert CoveredFrom(hashes, wanted)[1..] == CoveredFrom(rest, wanted);
        OneMoreSize(sizes, both, first);
      } else {
        assert both - {first} == both;
      }
    }
  }

  lemma CoveredStep(hashes: seq<Hash>, wanted: set<Hash>)
    requires hashes != []
    ensures CoveredFrom(hashes, wanted) ==
            if hashes[0] in wanted then [hashes[0]] + CoveredFrom(hashes[1..], wanted)
            else CoveredFrom(hashes[1..], wanted)
  {
  }

  lemma NoSize(sizes: map<Hash, nat>)
    ensures Sum(SizesOf(sizes, {})) == 0
  {
    assert SizesOf(sizes, {}) == map[];
  }

  lemma OneMoreSize(sizes: map<Hash, nat>, hashes: set<Hash>, h: Hash)
    requires h in hashes && h in sizes
    ensures Sum(SizesOf(sizes, hashes)) == Sum(SizesOf(sizes, hashes - {h})) + sizes[h]
  {
    hide Sum;
    SumRemove(SizesOf(sizes, hashes), h);
    assert SizesOf(sizes, hashes) - {h} == SizesOf(sizes, hashes - {h});
  }

  /**
   * The packs that were read: offered and fetched, smallest first, each with a source and with wanted chunks that were
   * not too few to read all of it for.
   */
  ghost predicate Reads(sizes: map<Hash, nat>, packs: seq<Pack>, fetched: map<Hash, nat>, requested: set<Hash>,
                        allowSparse: bool, threshold: real, used: seq<Pack>)
  {
    && Ascending(used)
    && forall pack | pack in used ::
         && pack in packs && pack.hash in fetched && pack.sources > 0
         && exists wanted: set<Hash> | requested <= wanted <= sizes.Keys ::
              Wants(pack, wanted) && !TooSparse(sizes, pack, wanted, allowSparse, threshold)
  }

  /** By size, and packs of one size by hash. */
  ghost predicate Ascending(packs: seq<Pack>) {
    forall i, j | 0 <= i < j < |packs| ::
      || packs[i].encodedSize < packs[j].encodedSize
      || (packs[i].encodedSize == packs[j].encodedSize && !Ordinal.Below(packs[j].hash, packs[i].hash))
  }

  lemma SortedAscends(packs: seq<Pack>)
    ensures Ascending(Sort(packs, PackOrder))
  {
    var sorted := Sort(packs, PackOrder);
    PackOrderIsTotal();
    SortCorrect(packs, PackOrder);
    forall i, j | 0 <= i < j < |sorted|
      ensures sorted[i].encodedSize <= sorted[j].encodedSize
      ensures sorted[i].encodedSize == sorted[j].encodedSize ==> !Ordinal.Below(sorted[j].hash, sorted[i].hash) {
      assert PackOrder(sorted[i], sorted[j]);
      Ordinal.CompareMeans(sorted[i].hash, sorted[j].hash);
    }
  }

  lemma NothingRead(sizes: map<Hash, nat>, packs: seq<Pack>, fetched: map<Hash, nat>, requested: set<Hash>,
                    allowSparse: bool, threshold: real)
    ensures Reads(sizes, packs, fetched, requested, allowSparse, threshold, [])
  {
  }

  /** What was read so far comes from the packs before this one. */
  ghost predicate From(ordered: seq<Pack>, k: nat, used: seq<Pack>) {
    k <= |ordered| && forall pack | pack in used :: pack in ordered[..k]
  }

  lemma NothingFrom(ordered: seq<Pack>)
    ensures From(ordered, 0, [])
  {
  }

  lemma OneMoreRead(sizes: map<Hash, nat>, packs: seq<Pack>, fetched: map<Hash, nat>, wanted: set<Hash>,
                    requested: set<Hash>, allowSparse: bool, threshold: real, used: seq<Pack>, ordered: seq<Pack>,
                    k: nat)
    requires Reads(sizes, packs, fetched, wanted, allowSparse, threshold, used) && requested <= wanted <= sizes.Keys
    requires ordered == Sort(packs, PackOrder) && k < |ordered| && From(ordered, k, used)
    ensures Reads(sizes, packs, fetched, requested, allowSparse, threshold, used) && From(ordered, k + 1, used)
    ensures From(ordered, k + 1, used + [ordered[k]])
    ensures ordered[k].hash in fetched && ordered[k].sources > 0 && Wants(ordered[k], wanted)
            && !TooSparse(sizes, ordered[k], wanted, allowSparse, threshold) ==>
              Reads(sizes, packs, fetched, requested, allowSparse, threshold, used + [ordered[k]])
  {
    hide Sort, TooSparse, Wants;
    var pack, more := ordered[k], used + [ordered[k]];
    PackIsOffered(packs, pack);
    SortedAscends(packs);
    assert ordered[..k + 1] == ordered[..k] + [pack];
    assert Ascending(more) by {
      forall i | 0 <= i < |used| ensures exists m | 0 <= m < k :: ordered[m] == used[i] {
        assert used[i] in ordered[..k];
      }
    }
  }

  /** The network bytes of the packs that were read; one that is in its cache costs none. */
  ghost function NetworkOf(fetched: map<Hash, nat>, used: seq<Pack>): nat
    requires forall pack | pack in used :: pack.hash in fetched
  {
    if used == [] then 0 else NetworkOf(fetched, used[..|used| - 1]) + fetched[used[|used| - 1].hash]
  }

  lemma NetworkGrows(fetched: map<Hash, nat>, used: seq<Pack>, pack: Pack)
    requires (forall p | p in used :: p.hash in fetched) && pack.hash in fetched
    ensures NetworkOf(fetched, used + [pack]) == NetworkOf(fetched, used) + fetched[pack.hash]
  {
    assert (used + [pack])[..|used|] == used;
  }

  ghost function SizesOf(sizes: map<Hash, nat>, hashes: set<Hash>): map<Hash, nat> {
    map h | h in hashes && h in sizes :: sizes[h]
  }

  /** Requested and prepared split the missing hashes, and the logical bytes are the sizes of the prepared ones. */
  ghost predicate Splits(sizes: map<Hash, nat>, requested: set<Hash>, prepared: set<Hash>, logicalBytes: nat) {
    requested + prepared == sizes.Keys && requested !! prepared && logicalBytes == Sum(SizesOf(sizes, prepared))
  }

  lemma OneMorePrepared(sizes: map<Hash, nat>, requested: set<Hash>, prepared: set<Hash>, logicalBytes: nat, hash: Hash)
    requires Splits(sizes, requested, prepared, logicalBytes) && hash in requested
    ensures Splits(sizes, requested - {hash}, prepared + {hash}, logicalBytes + sizes[hash])
  {
    SumInsert(SizesOf(sizes, prepared), hash, sizes[hash]);
    assert SizesOf(sizes, prepared + {hash}) == SizesOf(sizes, prepared)[hash := sizes[hash]];
  }

  class PackDownloader {
    const cache: Cache.ChunkCache

    /** The hashes materialized from packs: shared with the caller, so they survive an exception. */
    var prepared: set<Hash>

    constructor (cache: Cache.ChunkCache)
      ensures this.cache == cache && prepared == {}
    {
      this.cache, prepared := cache, {};
    }

    ghost predicate CacheOk()
      reads cache
    {
      cache.Valid() && cache.Authentic()
    }

    ghost predicate HasRoom(plan: Plan, now: int)
      reads cache
    {
      Roomy(cache.entries, cache.pinned, cache.maxBytes, plan, plan.wanted.Keys) && now >= plan.start
    }

    /**
     * What is in the cache of the prepared chunks has the right size, and puts have left the cache within its limit.
     */
    ghost predicate Trimmed(sizes: map<Hash, nat>)
      reads this, cache
    {
      && (forall h | h in prepared && h in cache.entries && h in sizes :: cache.entries[h].size == sizes[h])
      && (prepared != {} ==> TotalSize(cache.entries) <= cache.maxBytes || cache.entries.Keys <= cache.pinned)
    }

    /** Moves one chunk into the cache, if its pack holds it as announced. */
    method MaterializeChunk(pack: Pack, hash: Hash, contents: PackContents, now: int, sizes: map<Hash, nat>,
                            ghost plan: Plan)
      returns (failure: Option<PackFailure>)
      requires CacheOk() && hash in sizes && hash !in prepared && Trimmed(sizes)
      requires hash in plan.wanted && plan.wanted[hash] == sizes[hash]
      modifies this`prepared, cache`files, cache`entries, cache`currentBytes
      ensures CacheOk() && Trimmed(sizes) && (old(cache.Indexed()) ==> cache.Indexed())
      ensures failure.None? <==> Sound(pack, contents, sizes, hash)
      ensures failure == Some(Uncaught) <==> IsHash(hash) && contents(pack.hash, hash).Absent?
      ensures prepared == if failure.None? then old(prepared) + {hash} else old(prepared)
      ensures failure.Some? ==> cache.files == old(cache.files) && cache.entries == old(cache.entries)
      ensures old(HasRoom(plan, now)) ==>
                && HasRoom(plan, now) && (failure.None? ==> hash in cache.entries)
                && forall h | h in plan.wanted && h in old(cache.entries) :: h in cache.entries
    {
      hide Pass, TotalSize, Roomy;
      if !IsHash(hash) {
        return Some(Caught);
      }
      var read := contents(pack.hash, hash);
      if read.Absent? {
        return Some(Uncaught);
      }
      if read.Corrupt? || |read.bytes| != sizes[hash] {
        return Some(Caught);
      }
      ghost var victims;
      var error;
      error, victims := cache.Put(hash, read.bytes, now);
      if error.Some? {
        return Some(Caught);
      }
      prepared := prepared + {hash};
      ghost var stored := old(cache.entries)[hash := CacheEntry(sizes[hash], now)];
      PassResult(stored, cache.pinned, cache.maxBytes, victims, cache.entries);
      if old(HasRoom(plan, now)) {
        PutKeepsRoom(old(cache.entries), cache.pinned, cache.maxBytes, plan, hash, now, victims, cache.entries);
      }
      return None;
    }

    /** Moves the covered chunks of one pack into the cache; an exception ends the loop where it is. */
    method Materialize(pack: Pack, covered: seq<Hash>, contents: PackContents, now: int, sizes: map<Hash, nat>,
                       requested: set<Hash>, logicalBytes: nat, ghost plan: Plan)
      returns (failure: Option<PackFailure>, requested': set<Hash>, logicalBytes': nat)
      requires CacheOk() && Splits(sizes, requested, prepared, logicalBytes) && Trimmed(sizes) && Includes(plan, sizes)
      requires forall h | h in covered :: h in requested
      modifies this`prepared, cache`files, cache`entries, cache`currentBytes
      ensures CacheOk() && Splits(sizes, requested', prepared, logicalBytes') && Trimmed(sizes)
      ensures old(cache.Indexed()) ==> cache.Indexed()
      ensures old(prepared) <= prepared <= old(prepared) + Elements(covered)
      ensures requested' <= requested
      ensures (failure.None? ==> Elements(covered) <= prepared && requested' !! Elements(covered))
      ensures failure.Some? ==>
                exists k | 0 <= k < |covered| :: FailsAt(pack, covered, contents, sizes, failure.value, k)
      ensures forall h | h in prepared && h !in old(prepared) :: Sound(pack, contents, sizes, h)
      ensures old(HasRoom(plan, now)) ==> HasRoom(plan, now) && Stay(old(cache.entries), old(prepared), plan)
    {
      hide Splits, Roomy, PackDownloader.Trimmed, PackDownloader.HasRoom, PackDownloader.CacheOk, PackDownloader.Sound;
      RequestedIsMissing(sizes, requested, prepared, logicalBytes);
      failure, requested', logicalBytes' := None, requested, logicalBytes;
      for k := 0 to |covered|
        invariant failure.None? && CacheOk() && Splits(sizes, requested', prepared, logicalBytes') && Trimmed(sizes)
        invariant old(cache.Indexed()) ==> cache.Indexed()
        invariant old(prepared) <= prepared <= old(prepared) + Elements(covered)
        invariant forall h | h in covered[..k] :: h in prepared
        invariant requested' <= requested && requested' !! prepared
        invariant forall h | h in covered && h !in prepared :: h in requested'
        invariant forall h | h in prepared && h !in old(prepared) :: Sound(pack, contents, sizes, h)
        invariant old(HasRoom(plan, now)) ==> HasRoom(plan, now) && Stay(old(cache.entries), old(prepared), plan)
      {
        var hash := covered[k];
        if hash in prepared {
          continue;
        }
        assert hash in covered;
        RequestedHasSize(sizes, requested', prepared, logicalBytes', hash);
        failure := MaterializeChunk(pack, hash, contents, now, sizes, plan);
        if failure.Some? {
          assert FailsAt(pack, covered, contents, sizes, failure.value, k);
          return;
        }
        OneMorePrepared(sizes, requested', prepared - {hash}, logicalBytes', hash);
        assert prepared - {hash} + {hash} == prepared;
        requested' := requested' - {hash};
        logicalBytes' := logicalBytes' + sizes[hash];
      }
    }

    /** A pack holds this chunk with its digest and its size. */
    predicate Sound(pack: Pack, contents: PackContents, sizes: map<Hash, nat>, h: Hash) {
      && IsHash(h) && h in sizes && contents(pack.hash, h).Chunk?
      && cache.hash(contents(pack.hash, h).bytes) == h && |contents(pack.hash, h).bytes| == sizes[h]
    }

    /** The chunk at `k` is the first that its pack does not hold as announced; those before it are prepared. */
    ghost predicate FailsAt(pack: Pack, hashes: seq<Hash>, contents: PackContents, sizes: map<Hash, nat>,
                            failure: PackFailure,
                            k: nat)
      reads this
    {
      && k < |hashes| && !Sound(pack, contents, sizes, hashes[k])
      && (failure.Uncaught? <==> IsHash(hashes[k]) && contents(pack.hash, hashes[k]).Absent?)
      && forall j | 0 <= j < k && hashes[j] in sizes :: hashes[j] in prepared
    }

    /** Wanted chunks that were there, or have been prepared since, are there. */
    ghost predicate Stay(entries: Entries, preparedBefore: set<Hash>, plan: Plan)
      reads this, cache
    {
      forall h | h in plan.wanted && (h in entries || (h in prepared && h !in preparedBefore)) :: h in cache.entries
    }

    /** A pack that could not be fetched, or that does not hold what it announced. */
    ghost predicate Fails(pack: Pack, fetched: map<Hash, nat>, contents: PackContents, sizes: map<Hash, nat>,
                          failure: PackFailure)
      reads this
    {
      || (pack.hash !in fetched && failure.Caught?)
      || exists k | 0 <= k < |pack.chunkHashes| :: FailsAt(pack, pack.chunkHashes, contents, sizes, failure, k)
    }

    /** The loop over packs, smallest first: skips packs that cover too little and stops when nothing is left. */
    method DownloadPacks(sizes: map<Hash, nat>, packs: seq<Pack>, fetched: map<Hash, nat>, contents: PackContents,
                         allowSparse: bool, threshold: real, now: int, ghost plan: Plan)
      returns (failure: Option<PackFailure>, requested: set<Hash>, networkBytes: nat, logicalBytes: nat,
               ghost used: seq<Pack>)
      requires CacheOk() && prepared == {} && Includes(plan, sizes)
      modifies this`prepared, cache`files, cache`entries, cache`currentBytes
      ensures CacheOk() && Splits(sizes, requested, prepared, logicalBytes) && Trimmed(sizes)
      ensures old(cache.Indexed()) ==> cache.Indexed()
      ensures AllSound(used, contents, sizes, {})
      ensures Reads(sizes, packs, fetched, requested, allowSparse, threshold, used)
      ensures (forall p | p in used :: p.hash in fetched) && networkBytes == NetworkOf(fetched, used)
      ensures failure.None? ==> forall pack | pack in packs :: Settled(sizes, pack, requested, allowSparse, threshold)
      ensures failure.Some? ==> exists pack | pack in packs :: Fails(pack, fetched, contents, sizes, failure.value)
      ensures old(HasRoom(plan, now)) ==> HasRoom(plan, now) && Stay(old(cache.entries), {}, plan)
    {
      hide Splits, Settled, Roomy, Reads, From, TooSparse, Wants, Sort, PackDownloader.Trimmed, PackDownloader.HasRoom,
          PackDownloader.CacheOk, PackDownloader.Sound, PackDownloader.AllSound, PackDownloader.AllFrom;
      hide PackDownloader.Fails, PackDownloader.FailsAt, PackOrder, LeftToRelay, Includes, Sum, SizesOf;
      requested, networkBytes, logicalBytes, failure, used := sizes.Keys, 0, 0, None, [];
      NothingPrepared(sizes);
      assert Trimmed(sizes) by { NothingTrimmed(sizes); }
      NothingRead(sizes, packs, fetched, requested, allowSparse, threshold);
      NoneSound(contents, sizes);
      if sizes == map[] {
        assert requested == {};
        NothingLeft(sizes, packs, allowSparse, threshold);
        return;
      }
      var ordered := Sort(packs, PackOrder);
      assert From(ordered, 0, used) by { NothingFrom(ordered); }
      for k := 0 to |ordered|
        invariant CacheOk() && Splits(sizes, requested, prepared, logicalBytes) && Trimmed(sizes)
        invariant old(cache.Indexed()) ==> cache.Indexed()
        invariant AllSound(used, contents, sizes, {}) && From(ordered, k, used)
        invariant Reads(sizes, packs, fetched, requested, allowSparse, threshold, used) && requested <= sizes.Keys
        invariant (forall p | p in used :: p.hash in fetched) && networkBytes == NetworkOf(fetched, used)
        invariant failure.None? && forall pack | pack in ordered[..k] ::
                  Settled(sizes, pack, requested, allowSparse, threshold)
        invariant old(HasRoom(plan, now)) ==> HasRoom(plan, now) && Stay(old(cache.entries), {}, plan)
      {
        var pack := ordered[k];
        assert ordered[..k + 1] == ordered[..k] + [pack];
        PackIsOffered(packs, pack);
        ghost var wanted, before := requested, prepared;
        SoundSoFar(used, contents, sizes);
        var read;
        failure, read, requested, logicalBytes :=
          TakeFrom(pack, sizes, fetched, contents, allowSparse, threshold, now, requested, logicalBytes, plan);
        OneMoreRead(sizes, packs, fetched, wanted, requested, allowSparse, threshold, used, ordered, k);
        if read {
          networkBytes := networkBytes + fetched[pack.hash];
          NetworkGrows(fetched, used, pack);
          SoundGrows(used, pack, contents, sizes, before);
          used := used + [pack];
        }
        if failure.Some? {
          return;
        }
        forall p | p in ordered[..k] ensures Settled(sizes, p, requested, allowSparse, threshold) {
          SettledStays(sizes, p, wanted, requested, allowSparse, threshold);
        }
        if requested == {} {
          NothingLeft(sizes, packs, allowSparse, threshold);
          return;
        }
      }
      assert ordered[..|ordered|] == ordered;
      forall pack | pack in packs ensures Settled(sizes, pack, requested, allowSparse, threshold) {
        PackIsOffered(packs, pack);
      }
    }

    /** Prepared chunks, but perhaps those prepared before, come out of one of these packs as announced. */
    ghost predicate AllSound(packs: seq<Pack>, contents: PackContents, sizes: map<Hash, nat>, before: set<Hash>)
      reads this`prepared
    {
      AllFrom(packs, contents, sizes, prepared - before)
    }

    ghost predicate AllFrom(packs: seq<Pack>, contents: PackContents, sizes: map<Hash, nat>, hashes: set<Hash>) {
      forall h | h in hashes :: exists pack | pack in packs && h in pack.chunkHashes :: Sound(pack, contents, sizes, h)
    }

    lemma SoundGrows(used: seq<Pack>, pack: Pack, contents: PackContents, sizes: map<Hash, nat>, before: set<Hash>)
      requires AllSound([pack], contents, sizes, before) && AllFrom(used, contents, sizes, before)
      ensures AllSound(used + [pack], contents, sizes, {}) && AllFrom(used + [pack], contents, sizes, prepared)
    {
      hide PackDownloader.Sound;
      var more := used + [pack];
      forall h | h in prepared ensures exists p | p in more && h in p.chunkHashes :: Sound(p, contents, sizes, h) {
        if h in before {
          var p :| p in used && h in p.chunkHashes && Sound(p, contents, sizes, h);
          assert p in more;
        } else {
          assert h in prepared - before && pack in more;
        }
      }
    }

    lemma SoundSoFar(used: seq<Pack>, contents: PackContents, sizes: map<Hash, nat>)
      ensures AllFrom(used, contents, sizes, prepared) <==> AllSound(used, contents, sizes, {})
    {
      assert prepared - {} == prepared;
    }

    lemma SoundInMore(used: seq<Pack>, packs: seq<Pack>, contents: PackContents, sizes: map<Hash, nat>)
      requires AllSound(used, contents, sizes, {}) && forall pack | pack in used :: pack in packs
      ensures AllSound(packs, contents, sizes, {})
    {
      hide PackDownloader.Sound;
    }

    /** One turn of the loop: skips this pack, or reads it and takes from it what is still requested. */
    method TakeFrom(pack: Pack, sizes: map<Hash, nat>, fetched: map<Hash, nat>, contents: PackContents,
                    allowSparse: bool,
                    threshold: real, now: int, requested: set<Hash>, logicalBytes: nat, ghost plan: Plan)
      returns (failure: Option<PackFailure>, read: bool, requested': set<Hash>, logicalBytes': nat)
      requires CacheOk() && Splits(sizes, requested, prepared, logicalBytes) && Trimmed(sizes) && Includes(plan, sizes)
      modifies this`prepared, cache`files, cache`entries, cache`currentBytes
      ensures CacheOk() && Splits(sizes, requested', prepared, logicalBytes') && Trimmed(sizes)
      ensures requested' <= requested
      ensures old(cache.Indexed()) ==> cache.Indexed()
      ensures old(prepared) <= prepared && AllSound([pack], contents, sizes, old(prepared))
      ensures read <==>
                && pack.hash in fetched && pack.sources > 0 && Wants(pack, requested)
                && requested <= sizes.Keys && !TooSparse(sizes, pack, requested, allowSparse, threshold)
      ensures !read ==> prepared == old(prepared)
      ensures failure.None? ==> Settled(sizes, pack, requested', allowSparse, threshold)
      ensures failure.Some? ==> Fails(pack, fetched, contents, sizes, failure.value)
      ensures old(HasRoom(plan, now)) ==> HasRoom(plan, now) && Stay(old(cache.entries), old(prepared), plan)
    {
      hide Splits, Settled, Roomy, PackDownloader.Trimmed, PackDownloader.HasRoom, PackDownloader.CacheOk,
          PackDownloader.Sound;
      failure, read, requested', logicalBytes' := None, false, requested, logicalBytes;
      RequestedIsMissing(sizes, requested, prepared, logicalBytes);
      var covered := Covered(pack, requested);
      WantsIff(pack, requested);
      RelayIff(sizes, pack, requested, allowSparse, threshold);
      if covered == [] || pack.sources == 0 {
        SettledNow(sizes, pack, requested, allowSparse, threshold);
        return;
      }
      if LeftToRelay(pack, CoveredBytes(sizes, covered), allowSparse, threshold) {
        SettledNow(sizes, pack, requested, allowSparse, threshold);
        return;
      }
      if pack.hash !in fetched {
        failure := Some(Caught);
        return;
      }
      read := true;
      CoveredComesFromPack(pack.chunkHashes, requested);
      failure, requested', logicalBytes' :=
          Materialize(pack, covered, contents, now, sizes, requested, logicalBytes, plan);
      assert pack in [pack];
      if failure.Some? {
        FailsInPack(pack, covered, requested, old(prepared), contents, sizes, failure.value);
      } else {
        RequestedIsMissing(sizes, requested', prepared, logicalBytes');
        AllTaken(pack, requested, requested');
        SettledNow(sizes, pack, requested', allowSparse, threshold);
      }
    }

    lemma NoneSound(contents: PackContents, sizes: map<Hash, nat>)
      requires prepared == {}
      ensures AllSound([], contents, sizes, {})
    {
    }

    lemma NothingTrimmed(sizes: map<Hash, nat>)
      requires prepared == {}
      ensures Trimmed(sizes)
    {
    }

    /** The first failing chunk among those covered is the first failing one of its pack. */
    lemma FailsInPack(pack: Pack, covered: seq<Hash>, wanted: set<Hash>, before: set<Hash>, contents: PackContents,
                      sizes: map<Hash, nat>, failure: PackFailure)
      requires covered == Covered(pack, wanted) && wanted + before == sizes.Keys && before <= prepared
      requires exists k | 0 <= k < |covered| :: FailsAt(pack, covered, contents, sizes, failure, k)
      ensures exists k | 0 <= k < |pack.chunkHashes| :: FailsAt(pack, pack.chunkHashes, contents, sizes, failure, k)
    {
      hide PackDownloader.Sound;
      var k :| 0 <= k < |covered| && FailsAt(pack, covered, contents, sizes, failure, k);
      var at := CoveredIndex(pack.chunkHashes, wanted, k);
      forall j | 0 <= j < at && pack.chunkHashes[j] in sizes ensures pack.chunkHashes[j] in prepared {
        if pack.chunkHashes[j] in wanted {
          var c :| 0 <= c < k && covered[c] == pack.chunkHashes[j];
        }
      }
      assert FailsAt(pack, pack.chunkHashes, contents, sizes, failure, at);
    }
  }

  ghost predicate Includes(plan: Plan, sizes: map<Hash, nat>) {
    forall h | h in sizes :: h in plan.wanted && plan.wanted[h] == sizes[h]
  }

  /** Where a covered hash stands in its pack: what is requested before it is covered before it. */
  lemma {:induction false} CoveredIndex(hashes: seq<Hash>, requested: set<Hash>, k: nat) returns (at: nat)
    requires k < |CoveredFrom(hashes, requested)|
    ensures at < |hashes| && hashes[at] == CoveredFrom(hashes, requested)[k]
    ensures forall j | 0 <= j < at && hashes[j] in requested ::
              exists c | 0 <= c < k :: CoveredFrom(hashes, requested)[c] == hashes[j]
  {
    var covered, rest := CoveredFrom(hashes, requested), CoveredFrom(hashes[1..], requested);
    if hashes[0] in requested && k == 0 {
      at := 0;
    } else {
      var skip := if hashes[0] in requested then 1 else 0;
      assert covered[skip..] == rest;
      var later := CoveredIndex(hashes[1..], requested, k - skip);
      at := later + 1;
      forall j | 0 <= j < at && hashes[j] in requested ensures exists c | 0 <= c < k :: covered[c] == hashes[j] {
        if j == 0 {
          assert covered[0] == hashes[0];
        } else {
          assert hashes[1..][j - 1] == hashes[j];
          var c :| 0 <= c < k - skip && rest[c] == hashes[j];
          assert covered[c + skip] == hashes[j];
        }
      }
    }
  }

  /**
   * Nothing is left to take from this pack, or it has no source, or it was left to the relay for covering too little.
   */
  ghost predicate Settled(sizes: map<Hash, nat>, pack: Pack, requested: set<Hash>, allowSparse: bool, threshold: real) {
    || pack.sources == 0
    || (forall h | h in pack.chunkHashes :: h !in requested)
    || exists wanted: set<Hash> | requested <= wanted <= sizes.Keys ::
         TooSparse(sizes, pack, wanted, allowSparse, threshold)
  }

  lemma SettledStays(sizes: map<Hash, nat>, pack: Pack, more: set<Hash>, fewer: set<Hash>, allowSparse: bool,
                     threshold: real)
    requires Settled(sizes, pack, more, allowSparse, threshold) && fewer <= more
    ensures Settled(sizes, pack, fewer, allowSparse, threshold)
  {
  }

  lemma SettledNow(sizes: map<Hash, nat>, pack: Pack, requested: set<Hash>, allowSparse: bool, threshold: real)
    requires requested <= sizes.Keys
    requires
      || pack.sources == 0 || Covered(pack, requested) == []
      || TooSparse(sizes, pack, requested, allowSparse, threshold)
    ensures Settled(sizes, pack, requested, allowSparse, threshold)
  {
    CoveredComesFromPack(pack.chunkHashes, requested);
  }

  lemma WantsIff(pack: Pack, requested: set<Hash>)
    ensures Wants(pack, requested) <==> Covered(pack, requested) != []
  {
    CoveredComesFromPack(pack.chunkHashes, requested);
    var covered := Covered(pack, requested);
    if covered != [] {
      assert covered[0] in covered;
    }
  }

  lemma AllTaken(pack: Pack, wanted: set<Hash>, requested: set<Hash>)
    requires requested <= wanted && requested !! Elements(Covered(pack, wanted))
    ensures Covered(pack, requested) == []
  {
    var left := Covered(pack, requested);
    assert left != [] ==> left[0] in left;
    CoveredComesFromPack(pack.chunkHashes, wanted);
    CoveredComesFromPack(pack.chunkHashes, requested);
    assert forall h | h in Covered(pack, requested) :: h in Elements(Covered(pack, wanted));
  }

  lemma NothingLeft(sizes: map<Hash, nat>, packs: seq<Pack>, allowSparse: bool, threshold: real)
    ensures forall pack | pack in packs :: Settled(sizes, pack, {}, allowSparse, threshold)
  {
  }

  lemma NothingPrepared(sizes: map<Hash, nat>)
    ensures Splits(sizes, sizes.Keys, {}, 0)
  {
    assert SizesOf(sizes, {}) == map[];
  }

  lemma RequestedHasSize(sizes: map<Hash, nat>, requested: set<Hash>, prepared: set<Hash>, logicalBytes: nat,
                         hash: Hash)
    requires Splits(sizes, requested, prepared, logicalBytes) && hash in requested
    ensures hash in sizes
  {
  }

  lemma RequestedIsMissing(sizes: map<Hash, nat>, requested: set<Hash>, prepared: set<Hash>, logicalBytes: nat)
    requires Splits(sizes, requested, prepared, logicalBytes)
    ensures requested <= sizes.Keys && requested !! prepared && requested + prepared == sizes.Keys
  {
  }

  lemma {:induction false} CoveredComesFromPack(hashes: seq<Hash>, requested: set<Hash>)
    ensures forall h :: h in CoveredFrom(hashes, requested) <==> h in hashes && h in requested
  {
    if hashes == [] {
    } else {
      CoveredComesFromPack(hashes[1..], requested);
      assert hashes == [hashes[0]] + hashes[1..];
    }
  }

  lemma PackIsOffered(packs: seq<Pack>, pack: Pack)
    ensures pack in Sort(packs, PackOrder) <==> pack in packs
  {
    PackOrderIsTotal();
    SortMembers(packs, PackOrder, pack);
  }

  lemma PackOrderIsTotal()
    ensures TotalPreorder(PackOrder)
  {
    forall a: Pack, b: Pack ensures PackOrder(a, b) || PackOrder(b, a) {
      Ordinal.Antisymmetry(a.hash, b.hash);
    }
    forall a: Pack, b: Pack, c: Pack | PackOrder(a, b) && PackOrder(b, c) ensures PackOrder(a, c) {
      if Ordinal.Le(a.hash, b.hash) && Ordinal.Le(b.hash, c.hash) {
        Ordinal.Transitivity(a.hash, b.hash, c.hash);
      }
    }
  }
}
