/** The byte and chunk counters of a download whose tasks finish in any order. */
module DownloadAccounting {
  import opened Common
  import opened Manifests

  datatype Counter = Prepared | Network | Disk | ReusedBytes | DownloadedChunks | ReusedChunks

  /** One interlocked addition. */
  datatype Add = Add(counter: Counter, amount: nat)

  /** How the download of one chunk succeeds. */
  datatype Ending = FromCache | FromPack | Fetched(networkBytes: nat)

  function TaskAdds(chunk: ChunkRef, ending: Ending): seq<Add> {
    match ending
    case FromCache => [Add(Prepared, chunk.encodedSize), Add(ReusedBytes, chunk.encodedSize), Add(ReusedChunks, 1)]
    case FromPack => [Add(Prepared, chunk.encodedSize), Add(DownloadedChunks, 1)]
    case Fetched(bytes) =>
      [Add(Prepared, chunk.encodedSize), Add(Network, bytes), Add(Disk, chunk.encodedSize), Add(DownloadedChunks, 1)]
  }

  function AllAdds(chunks: seq<ChunkRef>, endings: seq<Ending>): seq<Add>
    requires |chunks| == |endings|
  {
    if chunks == [] then [] else TaskAdds(chunks[0], endings[0]) + AllAdds(chunks[1..], endings[1..])
  }

  function Total(counter: Counter, adds: seq<Add>): nat {
    if adds == [] then 0 else (if adds[0].counter == counter then adds[0].amount else 0) + Total(counter, adds[1..])
  }

  /** The first chunk of each encoded hash, in manifest order. */
  function Unique(chunks: seq<ChunkRef>): seq<ChunkRef> {
    if chunks == [] then [] else
      var rest, last := Unique(chunks[..|chunks| - 1]), chunks[|chunks| - 1];
      if exists c | c in rest :: c.encodedHash == last.encodedHash then rest else rest + [last]
  }

  function EncodedTotal(chunks: seq<ChunkRef>): nat {
    if chunks == [] then 0 else chunks[0].encodedSize + EncodedTotal(chunks[1..])
  }

  function FetchedTotal(endings: seq<Ending>): nat {
    if endings == [] then 0
    else (if endings[0].Fetched? then endings[0].networkBytes else 0) + FetchedTotal(endings[1..])
  }

  /** The bytes of the chunks that packs brought. */
  function PackTotal(chunks: seq<ChunkRef>, endings: seq<Ending>): nat
    requires |chunks| == |endings|
  {
    if chunks == [] then 0 else (if endings[0].FromPack? then chunks[0].encodedSize else 0) + PackTotal(chunks[1..],
            endings[1..])
  }

  /** The bytes of the chunks that were in the cache. */
  function ReusedTotal(chunks: seq<ChunkRef>, endings: seq<Ending>): nat
    requires |chunks| == |endings|
  {
    if chunks == [] then 0
    else (if endings[0].FromCache? then chunks[0].encodedSize else 0) + ReusedTotal(chunks[1..], endings[1..])
  }

  function Count(endings: seq<Ending>, cached: bool): nat {
    if endings == [] then 0 else (if endings[0].FromCache? == cached then 1 else 0) + Count(endings[1..], cached)
  }

  /** The additions happen in some order, each one exactly once, whatever order the tasks interleave in. */
  ghost predicate Interleaves(order: seq<Add>, chunks: seq<ChunkRef>, endings: seq<Ending>)
    requires |chunks| == |endings|
  {
    multiset(order) == multiset(AllAdds(chunks, endings))
  }

  lemma {:induction false} TotalSplit(counter: Counter, left: seq<Add>, right: seq<Add>)
    ensures Total(counter, left + right) == Total(counter, left) + Total(counter, right)
  {
    if left == [] {
      assert left + right == right;
    } else {
      TotalSplit(counter, left[1..], right);
      assert (left + right)[1..] == left[1..] + right;
    }
  }

  function Without(adds: seq<Add>, k: nat): seq<Add>
    requires k < |adds|
  {
    adds[..k] + adds[k + 1..]
  }

  lemma WithoutOne(counter: Counter, adds: seq<Add>, k: nat)
    requires k < |adds|
    ensures |Without(adds, k)| == |adds| - 1
    ensures multiset(Without(adds, k)) == multiset(adds) - multiset{adds[k]}
    ensures Total(counter, adds) ==
              (if adds[k].counter == counter then adds[k].amount else 0) + Total(counter, Without(adds, k))
  {
    assert adds == adds[..k] + ([adds[k]] + adds[k + 1..]);
    TotalSplit(counter, adds[..k], adds[k + 1..]);
    TotalSplit(counter, adds[..k], [adds[k]] + adds[k + 1..]);
    TotalCons(counter, adds[k], adds[k + 1..]);
  }

  /** Addition does not care about the order. */
  lemma {:induction false} TotalIsOrderFree(counter: Counter, a: seq<Add>, b: seq<Add>)
    requires multiset(a) == multiset(b)
    ensures Total(counter, a) == Total(counter, b)
    decreases |a|
  {
    hide Without, Total;
    assert |multiset(a)| == |a| && |multiset(b)| == |b|;
    if a == [] {
      assert b == [];
    } else {
      assert a[0] in multiset(a);
      var k :| 0 <= k < |b| && b[k] == a[0];
      WithoutOne(counter, a, 0);
      WithoutOne(counter, b, k);
      TotalIsOrderFree(counter, Without(a, 0), Without(b, k));
    }
  }

  lemma {:induction false} TotalsOfTasks(chunks: seq<ChunkRef>, endings: seq<Ending>)
    requires |chunks| == |endings|
    ensures
      var adds := AllAdds(chunks, endings);
      && Total(Prepared, adds) == EncodedTotal(chunks) && Total(Network, adds) == FetchedTotal(endings)
      && Total(DownloadedChunks, adds) == Count(endings, false) && Total(ReusedChunks, adds) == Count(endings, true)
      && Total(DownloadedChunks, adds) + Total(ReusedChunks, adds) == |chunks|
      && Total(ReusedBytes, adds) == ReusedTotal(chunks, endings)
      && Total(Disk, adds) + Total(ReusedBytes, adds) + PackTotal(chunks, endings) == Total(Prepared, adds)
  {
    if chunks == [] {
    } else {
      TotalsOfTasks(chunks[1..], endings[1..]);
      var first := TaskAdds(chunks[0], endings[0]);
      var rest := AllAdds(chunks[1..], endings[1..]);
      forall c ensures Total(c, AllAdds(chunks, endings)) == Total(c, first) + Total(c, rest) {
        TotalSplit(c, first, rest);
      }
      FirstTotals(chunks[0], endings[0]);
    }
  }

  lemma FirstTotals(chunk: ChunkRef, ending: Ending)
    ensures
      var adds := TaskAdds(chunk, ending);
      && Total(Prepared, adds) == chunk.encodedSize
      && Total(Network, adds) == (if ending.Fetched? then ending.networkBytes else 0)
      && Total(DownloadedChunks, adds) == (if ending.FromCache? then 0 else 1)
      && Total(ReusedChunks, adds) == (if ending.FromCache? then 1 else 0)
      && Total(ReusedBytes, adds) == (if ending.FromCache? then chunk.encodedSize else 0)
      && Total(Disk, adds) + Total(ReusedBytes, adds) + (if ending.FromPack? then chunk.encodedSize else 0) ==
          chunk.encodedSize
  {
    forall c ensures FirstTotal(c, chunk, ending) {
      var prepared := Add(Prepared, chunk.encodedSize);
      match ending
      case FromCache =>
        TotalCons(c, prepared, [Add(ReusedBytes, chunk.encodedSize), Add(ReusedChunks, 1)]);
        TotalCons(c, Add(ReusedBytes, chunk.encodedSize), [Add(ReusedChunks, 1)]);
        TotalCons(c, Add(ReusedChunks, 1), []);
      case FromPack =>
        TotalCons(c, prepared, [Add(DownloadedChunks, 1)]);
        TotalCons(c, Add(DownloadedChunks, 1), []);
      case Fetched(bytes) =>
        TotalCons(c, prepared, [Add(Network, bytes), Add(Disk, chunk.encodedSize), Add(DownloadedChunks, 1)]);
        TotalCons(c, Add(Network, bytes), [Add(Disk, chunk.encodedSize), Add(DownloadedChunks, 1)]);
        TotalCons(c, Add(Disk, chunk.encodedSize), [Add(DownloadedChunks, 1)]);
        TotalCons(c, Add(DownloadedChunks, 1), []);
    }
    assert FirstTotal(Prepared, chunk, ending) && FirstTotal(Network, chunk, ending);
    assert FirstTotal(Disk, chunk, ending) && FirstTotal(ReusedBytes, chunk, ending);
    assert FirstTotal(DownloadedChunks, chunk, ending) && FirstTotal(ReusedChunks, chunk, ending);
  }

  ghost predicate FirstTotal(counter: Counter, chunk: ChunkRef, ending: Ending) {
    Total(counter, TaskAdds(chunk, ending)) ==
      match counter
      case Prepared => chunk.encodedSize
      case Network => if ending.Fetched? then ending.networkBytes else 0
      case Disk => if ending.Fetched? then chunk.encodedSize else 0
      case ReusedBytes => if ending.FromCache? then chunk.encodedSize else 0
      case DownloadedChunks => if ending.FromCache? then 0 else 1
      case ReusedChunks => if ending.FromCache? then 1 else 0
  }

  lemma TotalCons(counter: Counter, add: Add, rest: seq<Add>)
    ensures Total(counter, [add] + rest) == (if add.counter == counter then add.amount else 0) + Total(counter, rest)
  {
    assert ([add] + rest)[1..] == rest;
  }

  class Counters {
    var prepared: nat
    var network: nat
    var disk: nat
    var reusedBytes: nat
    var downloadedChunks: nat
    var reusedChunks: nat

    constructor ()
      ensures forall c :: Value(c) == 0
    {
      prepared, network, disk, reusedBytes, downloadedChunks, reusedChunks := 0, 0, 0, 0, 0, 0;
    }

    function Value(counter: Counter): nat
      reads this
    {
      match counter
      case Prepared => prepared
      case Network => network
      case Disk => disk
      case ReusedBytes => reusedBytes
      case DownloadedChunks => downloadedChunks
      case ReusedChunks => reusedChunks
    }

    method InterlockedAdd(add: Add)
      modifies this
      ensures forall c :: Value(c) == old(Value(c)) + (if c == add.counter then add.amount else 0)
    {
      match add.counter
      case Prepared => prepared := prepared + add.amount;
      case Network => network := network + add.amount;
      case Disk => disk := disk + add.amount;
      case ReusedBytes => reusedBytes := reusedBytes + add.amount;
      case DownloadedChunks => downloadedChunks := downloadedChunks + add.amount;
      case ReusedChunks => reusedChunks := reusedChunks + add.amount;
    }

    /**
     * All tasks of a download, their additions interleaved in the given order, on top of what the packs added. If
     * all of them succeed, the report has prepared bytes equal to total bytes, and each unique chunk is downloaded
     * or reused.
     */
    method RunTasks(order: seq<Add>, manifestChunks: seq<ChunkRef>, endings: seq<Ending>) returns (totalBytes: nat)
      requires |endings| == |Unique(manifestChunks)| && Interleaves(order, Unique(manifestChunks), endings)
      requires prepared == reusedBytes == downloadedChunks == reusedChunks == 0
      modifies this
      ensures totalBytes == EncodedTotal(Unique(manifestChunks)) && prepared == totalBytes
      ensures downloadedChunks + reusedChunks == |Unique(manifestChunks)|
      ensures reusedChunks == Count(endings, true) && network == old(network) + FetchedTotal(endings)
      ensures reusedBytes == ReusedTotal(Unique(manifestChunks), endings)
      ensures disk - old(disk) + reusedBytes + PackTotal(Unique(manifestChunks), endings) == prepared
    {
      var chunks := Unique(manifestChunks);
      totalBytes := EncodedTotal(chunks);
      Perform(order);
      assert Value(Prepared) == prepared && Value(Network) == network && Value(Disk) == disk &&
          Value(ReusedBytes) == reusedBytes;
      assert Value(DownloadedChunks) == downloadedChunks && Value(ReusedChunks) == reusedChunks;
      TotalsInOrder(order, chunks, endings);
    }

    method Perform(order: seq<Add>)
      modifies this
      ensures forall c :: Value(c) == old(Value(c)) + Total(c, order)
    {
      hide Total, Counters.Value;
      NoTotal();
      for k := 0 to |order|
        invariant forall c :: Value(c) == old(Value(c)) + Total(c, order[..k])
      {
        InterlockedAdd(order[k]);
        assert order[..k + 1] == order[..k] + [order[k]];
        TotalOfOneMore(order[..k], order[k]);
      }
      assert order[..|order|] == order;
    }
  }

  lemma NoTotal()
    ensures forall c :: Total(c, []) == 0
  {
  }

  lemma TotalOfOneMore(adds: seq<Add>, add: Add)
    ensures forall c :: Total(c, adds + [add]) == Total(c, adds) + if c == add.counter then add.amount else 0
  {
    forall c ensures Total(c, adds + [add]) == Total(c, adds) + if c == add.counter then add.amount else 0 {
      TotalSplit(c, adds, [add]);
      assert [add][1..] == [];
    }
  }

  /** Whatever the order, the totals are those of the tasks. */
  lemma TotalsInOrder(order: seq<Add>, chunks: seq<ChunkRef>, endings: seq<Ending>)
    requires |chunks| == |endings| && Interleaves(order, chunks, endings)
    ensures Total(Prepared, order) == EncodedTotal(chunks) && Total(Network, order) == FetchedTotal(endings)
    ensures Total(ReusedChunks, order) == Count(endings, true)
    ensures Total(DownloadedChunks, order) + Total(ReusedChunks, order) == |chunks|
    ensures Total(ReusedBytes, order) == ReusedTotal(chunks, endings)
    ensures Total(Disk, order) + Total(ReusedBytes, order) + PackTotal(chunks, endings) == EncodedTotal(chunks)
  {
    hide Total;
    forall c ensures Total(c, order) == Total(c, AllAdds(chunks, endings)) {
      TotalIsOrderFree(c, order, AllAdds(chunks, endings));
    }
    TotalsOfTasks(chunks, endings);
  }

  ghost predicate HasHash(chunks: seq<ChunkRef>, hash: Hash) {
    exists k | 0 <= k < |chunks| :: chunks[k].encodedHash == hash
  }

  /** The chunks to prepare have pairwise different hashes, and those are all the hashes of the manifest. */
  lemma {:induction false} UniqueCovers(chunks: seq<ChunkRef>)
    ensures forall h :: HasHash(Unique(chunks), h) <==> HasHash(chunks, h)
    ensures forall i, j | 0 <= i < j < |Unique(chunks)| ::
              Unique(chunks)[i].encodedHash != Unique(chunks)[j].encodedHash
  {
    if chunks == [] {
    } else {
      var front, last := chunks[..|chunks| - 1], chunks[|chunks| - 1];
      UniqueCovers(front);
      assert chunks == front + [last];
      HasHashSplit(front, last);
      HasHashSplit(Unique(front), last);
      assert HasHash(Unique(front), last.encodedHash) <==>
          exists c | c in Unique(front) :: c.encodedHash == last.encodedHash;
    }
  }

  lemma HasHashSplit(front: seq<ChunkRef>, last: ChunkRef)
    ensures forall h :: HasHash(front + [last], h) <==> HasHash(front, h) || last.encodedHash == h
  {
    forall h ensures HasHash(front + [last], h) <==> HasHash(front, h) || last.encodedHash == h {
      assert (front + [last])[|front|] == last;
      if HasHash(front, h) {
        var k :| 0 <= k < |front| && front[k].encodedHash == h;
        assert (front + [last])[k].encodedHash == h;
      }
    }
  }
}
