/** A reference writer of the physical pack layout that the reader expects, and the proof that the reader undoes it. */
module PackWriter {
  import opened Common
  import opened Encodings
  import opened Manifests
  import opened PackFormat
  import Ordinal
  import opened Sorting

  datatype Chunk = Chunk(encoded: Bytes, raw: Bytes)

  /** A chunk with the place of its bytes in the file. */
  datatype Placed = Placed(chunk: Chunk, offset: nat)

  function HashOf(digest: Bytes -> Digest, chunk: Chunk): Hash {
    ToHex(digest(chunk.encoded))
  }

  function Data(chunks: seq<Chunk>): Bytes {
    if chunks == [] then [] else chunks[0].encoded + Data(chunks[1..])
  }

  function Place(chunks: seq<Chunk>, offset: nat): seq<Placed> {
    if chunks == [] then [] else [Placed(chunks[0], offset)] + Place(chunks[1..], offset + |chunks[0].encoded|)
  }

  function ByHash(digest: Bytes -> Digest): (Placed, Placed) -> bool {
    (a: Placed, b: Placed) => Ordinal.Le(HashOf(digest, a.chunk), HashOf(digest, b.chunk))
  }

  function Zeros(n: nat): Bytes {
    seq(n, _ => 0)
  }

  function EncodeEntry(digest: Bytes -> Digest, p: Placed): (bytes: Bytes)
    ensures |bytes| == ENTRY_SIZE
  {
    digest(p.chunk.encoded) + digest(p.chunk.raw)
    + ToLittleEndian(p.offset, 8) + ToLittleEndian(|p.chunk.encoded|, 8) + ToLittleEndian(|p.chunk.raw|, 8)
    + ToLittleEndian(ZSTD, 4) + ToLittleEndian(0, 4)
  }

  function EncodeEntries(digest: Bytes -> Digest, placed: seq<Placed>): (bytes: Bytes)
    ensures |bytes| == ENTRY_SIZE * |placed|
  {
    if placed == [] then [] else EncodeEntry(digest, placed[0]) + EncodeEntries(digest, placed[1..])
  }

  function Header(count: nat, indexOffset: nat): (bytes: Bytes)
    ensures |bytes| == HEADER_SIZE
  {
    HEADER_MAGIC + ToLittleEndian(1, 2) + ToLittleEndian(0, 2) + ToLittleEndian(HEADER_SIZE, 4) + ToLittleEndian(count,
            8)
    + ToLittleEndian(HEADER_SIZE, 8) + ToLittleEndian(indexOffset, 8) + ToLittleEndian(count * ENTRY_SIZE,
            8) + Zeros(16)
  }

  function Footer(count: nat, indexOffset: nat, indexDigest: Digest): (bytes: Bytes)
    ensures |bytes| == FOOTER_SIZE
  {
    FOOTER_MAGIC + ToLittleEndian(1, 2) + ToLittleEndian(0, 2) + ToLittleEndian(indexOffset, 8)
    + ToLittleEndian(count * ENTRY_SIZE, 8) + ToLittleEndian(count, 8) + Zeros(4) + indexDigest
  }

  function Index(digest: Bytes -> Digest, chunks: seq<Chunk>): seq<Placed> {
    Sort(Place(chunks, HEADER_SIZE), ByHash(digest))
  }

  function WritePack(digest: Bytes -> Digest, chunks: seq<Chunk>): Bytes {
    var index := EncodeEntries(digest, Index(digest, chunks));
    var indexOffset := HEADER_SIZE + |Data(chunks)|;
    Header(|chunks|, indexOffset) + Data(chunks) + index + Footer(|chunks|, indexOffset, digest(index))
  }

  /** What a build hands to the writer: distinct hashes, no empty frame, sizes within the format's limits. */
  ghost predicate Writable(digest: Bytes -> Digest, chunks: seq<Chunk>) {
    && (forall i, j | 0 <= i < j < |chunks| :: HashOf(digest, chunks[i]) != HashOf(digest, chunks[j]))
    && (forall c | c in chunks :: 0 < |c.encoded| <= MAX_CHUNK_BYTES && |c.raw| <= MAX_CHUNK_BYTES)
    && |WritePack(digest, chunks)| <= INT_MAX
  }

  // ---- Reading back single fields.

  lemma SubSlice(s: Bytes, at: nat, a: nat, b: nat)
    requires a <= b && at + b <= |s|
    ensures s[at..][a..b] == s[at + a..at + b]
  {
  }

  lemma PartOf(s: Bytes, at: nat, n: nat, a: nat, b: nat)
    requires a <= b <= n && at + n <= |s|
    ensures s[at..at + n][a..b] == s[at + a..at + b]
  {
    var x, y := s[at..at + n][a..b], s[at + a..at + b];
    assert |x| == |y| && forall i | 0 <= i < |x| :: x[i] == y[i];
  }

  lemma FieldReads(bytes: Bytes, at: nat, v: nat, n: nat)
    requires at + n <= |bytes| && bytes[at..at + n] == ToLittleEndian(v, n) && v < Power256(n)
    ensures Number(bytes, at, n) == v
  {
    LittleEndianRoundTrip(v, n);
  }

  lemma HeaderSlices(count: nat, indexOffset: nat)
    ensures
      var h := Header(count, indexOffset);
      && h[..8] == HEADER_MAGIC && h[8..10] == ToLittleEndian(1, 2) && h[12..16] == ToLittleEndian(HEADER_SIZE, 4)
      && h[16..24] == ToLittleEndian(count, 8) && h[24..32] == ToLittleEndian(HEADER_SIZE, 8)
      && h[32..40] == ToLittleEndian(indexOffset, 8) && h[40..48] == ToLittleEndian(count * ENTRY_SIZE, 8)
  {
    hide ToLittleEndian, Zeros;
  }

  lemma FooterSlices(count: nat, indexOffset: nat, indexDigest: Digest)
    ensures
      var f := Footer(count, indexOffset, indexDigest);
      && f[..8] == FOOTER_MAGIC && f[8..10] == ToLittleEndian(1, 2) && f[12..20] == ToLittleEndian(indexOffset, 8)
      && f[20..28] ==
          ToLittleEndian(count * ENTRY_SIZE, 8) && f[28..36] == ToLittleEndian(count, 8) && f[40..72] == indexDigest
  {
    hide ToLittleEndian, Zeros;
  }

  lemma EntrySlices(digest: Bytes -> Digest, p: Placed)
    ensures
      var e := EncodeEntry(digest, p);
      && e[0..32] == digest(p.chunk.encoded) && e[32..64] == digest(p.chunk.raw)
      && e[64..72] == ToLittleEndian(p.offset, 8) && e[72..80] == ToLittleEndian(|p.chunk.encoded|, 8)
      && e[80..88] ==
          ToLittleEndian(|p.chunk.raw|, 8) && e[88..92] == ToLittleEndian(ZSTD, 4) && e[92..96] == ToLittleEndian(0, 4)
  {
    hide ToLittleEndian;
  }

  function EntryOf(digest: Bytes -> Digest, p: Placed): Entry {
    Entry(HashOf(digest, p.chunk), ToHex(digest(p.chunk.raw)), p.offset, |p.chunk.encoded|, |p.chunk.raw|, ZSTD, 0)
  }

  lemma EntryReadsBack(digest: Bytes -> Digest, p: Placed, bytes: Bytes, start: nat)
    requires start + ENTRY_SIZE <= |bytes| && bytes[start..start + ENTRY_SIZE] == EncodeEntry(digest, p)
    requires p.offset <= INT_MAX && |p.chunk.encoded| <= MAX_CHUNK_BYTES && |p.chunk.raw| <= MAX_CHUNK_BYTES
    ensures EntryAt(bytes, start) == EntryOf(digest, p)
  {
    hide ToLittleEndian, EncodeEntry, ToHex, FromLittleEndian, Number;
    var e := bytes[start..start + ENTRY_SIZE];
    EntrySlices(digest, p);
    Widths();
    PartOf(bytes, start, ENTRY_SIZE, 0, 32);
    PartOf(bytes, start, ENTRY_SIZE, 32, 64);
    PartOf(bytes, start, ENTRY_SIZE, 64, 72);
    PartOf(bytes, start, ENTRY_SIZE, 72, 80);
    PartOf(bytes, start, ENTRY_SIZE, 80, 88);
    PartOf(bytes, start, ENTRY_SIZE, 88, 92);
    PartOf(bytes, start, ENTRY_SIZE, 92, 96);
    FieldReads(bytes, start + 64, p.offset, 8);
    FieldReads(bytes, start + 72, |p.chunk.encoded|, 8);
    FieldReads(bytes, start + 80, |p.chunk.raw|, 8);
    FieldReads(bytes, start + 88, ZSTD, 4);
    FieldReads(bytes, start + 92, 0, 4);
  }

  // ---- The pieces of the whole file.

  lemma {:induction false} EntriesSlice(digest: Bytes -> Digest, placed: seq<Placed>, k: nat)
    requires k < |placed|
    ensures EncodeEntries(digest, placed)[k * ENTRY_SIZE..k * ENTRY_SIZE + ENTRY_SIZE] == EncodeEntry(digest, placed[k])
  {
    hide EncodeEntry;
    var first, rest := EncodeEntry(digest, placed[0]), EncodeEntries(digest, placed[1..]);
    if k > 0 {
      EntriesSlice(digest, placed[1..], k - 1);
      var at := (k - 1) * ENTRY_SIZE;
      assert (first + rest)[at + ENTRY_SIZE..at + ENTRY_SIZE + ENTRY_SIZE] == rest[at..at + ENTRY_SIZE];
    }
  }

  lemma {:induction false} PlaceShape(chunks: seq<Chunk>, offset: nat, k: nat)
    requires k < |chunks|
    ensures |Place(chunks, offset)| == |chunks| && Place(chunks, offset)[k].chunk == chunks[k]
    ensures Place(chunks, offset)[k].offset == offset + |Data(chunks[..k])|
    ensures |Data(chunks[..k])| + |chunks[k].encoded| <= |Data(chunks)|
    ensures Data(chunks)[|Data(chunks[..k])|..][..|chunks[k].encoded|] == chunks[k].encoded
  {
    if k > 0 {
      PlaceShape(chunks[1..], offset + |chunks[0].encoded|, k - 1);
      assert chunks[..k][0] == chunks[0] && chunks[..k][1..] == chunks[1..][..k - 1];
      var head, tail, at := chunks[0].encoded, Data(chunks[1..]), |Data(chunks[1..][..k - 1])|;
      assert (head + tail)[|head| + at..] == tail[at..];
    } else {
      PlaceLength(chunks, offset);
      assert chunks[..0] == [];
    }
  }

  lemma {:induction false} PlaceLength(chunks: seq<Chunk>, offset: nat)
    ensures |Place(chunks, offset)| == |chunks|
  {
    if chunks == [] {
    } else {
      PlaceLength(chunks[1..], offset + |chunks[0].encoded|);
    }
  }

  lemma {:induction false} DataGrows(chunks: seq<Chunk>, i: nat, j: nat)
    requires i < j < |chunks|
    ensures |Data(chunks[..i])| + |chunks[i].encoded| <= |Data(chunks[..j])|
  {
    if i > 0 {
      DataGrows(chunks[1..], i - 1, j - 1);
      assert chunks[..i][1..] == chunks[1..][..i - 1] && chunks[..j][1..] == chunks[1..][..j - 1];
    } else {
      assert chunks[..0] == [] && chunks[..j][0] == chunks[0];
    }
  }

  lemma HashOrder(digest: Bytes -> Digest)
    ensures TotalPreorder(ByHash(digest))
  {
    forall a: Placed, b: Placed ensures ByHash(digest)(a, b) || ByHash(digest)(b, a) {
      Ordinal.Antisymmetry(HashOf(digest, a.chunk), HashOf(digest, b.chunk));
    }
    forall a: Placed, b: Placed, c: Placed | ByHash(digest)(a, b) && ByHash(digest)(b, c) ensures ByHash(digest)(a, c) {
      Ordinal.Transitivity(HashOf(digest, a.chunk), HashOf(digest, b.chunk), HashOf(digest, c.chunk));
    }
  }

  /** Everything about the index that the reader will check: one entry for each chunk, sorted and apart. */
  lemma IndexShape(digest: Bytes -> Digest, chunks: seq<Chunk>)
    requires Writable(digest, chunks)
    ensures
      var index, entries := Index(digest, chunks), Entries(digest, chunks);
      && |index| == |chunks| && StrictlySorted(entries) && PairwiseApart(entries)
      && (forall p :: p in index <==> p in Place(chunks, HEADER_SIZE))
      && forall p | p in index :: InData(chunks, p)
  {
    hide Place, Data, Sort, WritePack;
    var placed, index := Place(chunks, HEADER_SIZE), Index(digest, chunks);
    PlaceLength(chunks, HEADER_SIZE);
    HashOrder(digest);
    SortCorrect(placed, ByHash(digest));
    forall p ensures p in index <==> p in placed {
      SortMembers(placed, ByHash(digest), p);
    }
    forall k | 0 <= k < |placed| ensures placed[k].chunk == chunks[k] && InData(chunks, placed[k]) {
      PlaceShape(chunks, HEADER_SIZE, k);
    }
    HashesDiffer(digest, chunks, placed);
    SortedPlaces(digest, chunks, placed, index);
    PlacesAreApart(digest, chunks);
    EntriesAreApart(digest, index, placed);
  }

  lemma PlacesAreApart(digest: Bytes -> Digest, chunks: seq<Chunk>)
    ensures
      var placed := Place(chunks, HEADER_SIZE);
      forall i, j | 0 <= i < j < |placed| :: Apart(EntryOf(digest, placed[i]), EntryOf(digest, placed[j]))
  {
    hide Place, Data;
    var placed := Place(chunks, HEADER_SIZE);
    PlaceLength(chunks, HEADER_SIZE);
    forall i, j | 0 <= i < j < |placed| ensures Apart(EntryOf(digest, placed[i]), EntryOf(digest, placed[j])) {
      PlaceShape(chunks, HEADER_SIZE, i);
      PlaceShape(chunks, HEADER_SIZE, j);
      DataGrows(chunks, i, j);
    }
  }

  lemma EntriesAreApart(digest: Bytes -> Digest, index: seq<Placed>, placed: seq<Placed>)
    requires forall p :: p in index <==> p in placed
    requires forall i, j | 0 <= i < j < |placed| :: Apart(EntryOf(digest, placed[i]), EntryOf(digest, placed[j]))
    ensures forall a, b | a in index && b in index && a != b :: Apart(EntryOf(digest, a), EntryOf(digest, b))
  {
    hide EntryOf;
    forall a, b | a in index && b in index && a != b ensures Apart(EntryOf(digest, a), EntryOf(digest, b)) {
      var i :| 0 <= i < |placed| && placed[i] == a;
      var j :| 0 <= j < |placed| && placed[j] == b;
      assert i < j || j < i;
    }
  }

  function Entries(digest: Bytes -> Digest, chunks: seq<Chunk>): seq<Entry> {
    var index := Index(digest, chunks);
    seq(|index|, k requires 0 <= k < |index| => EntryOf(digest, index[k]))
  }

  /** A placed chunk lies where the data says. */
  predicate InData(chunks: seq<Chunk>, p: Placed) {
    && p.chunk in chunks && HEADER_SIZE <= p.offset && p.offset - HEADER_SIZE + |p.chunk.encoded| <= |Data(chunks)|
    && Data(chunks)[p.offset - HEADER_SIZE..][..|p.chunk.encoded|] == p.chunk.encoded
  }

  lemma HashesDiffer(digest: Bytes -> Digest, chunks: seq<Chunk>, placed: seq<Placed>)
    requires forall i, j | 0 <= i < j < |chunks| :: HashOf(digest, chunks[i]) != HashOf(digest, chunks[j])
    requires |placed| == |chunks| && forall k | 0 <= k < |placed| :: placed[k].chunk == chunks[k]
    ensures Distinct(placed)
    ensures forall a, b | a in placed && b in placed && HashOf(digest, a.chunk) == HashOf(digest, b.chunk) :: a == b
  {
  }

  lemma SortedPlaces(digest: Bytes -> Digest, chunks: seq<Chunk>, placed: seq<Placed>, index: seq<Placed>)
    requires index == Index(digest, chunks) && SortedBy(index, ByHash(digest)) && multiset(index) == multiset(placed)
    requires Distinct(placed) && forall p :: p in index <==> p in placed
    requires forall a, b | a in placed && b in placed && HashOf(digest, a.chunk) == HashOf(digest, b.chunk) :: a == b
    ensures StrictlySorted(Entries(digest, chunks))
  {
    hide Index;
    var entries := Entries(digest, chunks);
    forall i, j | 0 <= i < j < |index| ensures index[i] != index[j] {
      if index[i] == index[j] {
        CountTwice(index, i, j);
        CountOnce(placed, index[i]);
      }
    }
    forall k | 0 < k < |entries| ensures Ordinal.Compare(entries[k - 1].encodedHash, entries[k].encodedHash) < 0 {
      var a, b := index[k - 1], index[k];
      assert ByHash(digest)(a, b);
      assert a in index && b in index;
      Ordinal.Antisymmetry(HashOf(digest, a.chunk), HashOf(digest, b.chunk));
    }
  }

  /** Where the four parts of the file are. */
  lemma Parts(digest: Bytes -> Digest, chunks: seq<Chunk>)
    ensures
      var pack, data, index := WritePack(digest, chunks), Data(chunks), EncodeEntries(digest, Index(digest, chunks));
      var indexOffset := HEADER_SIZE + |data|;
      && |pack| == indexOffset + |index| + FOOTER_SIZE
      && pack[..HEADER_SIZE] == Header(|chunks|, indexOffset)
      && pack[HEADER_SIZE..indexOffset] == data
      && pack[indexOffset..indexOffset + |index|] == index
      && pack[indexOffset + |index|..] == Footer(|chunks|, indexOffset, digest(index))
  {
    hide Header, Footer, Data, EncodeEntries, Index;
  }

  lemma FrameIsOk(digest: Bytes -> Digest, chunks: seq<Chunk>)
    requires Writable(digest, chunks)
    ensures
      var pack := WritePack(digest, chunks);
      FrameOk(pack, digest) && Number(pack, 32, 8) == HEADER_SIZE + |Data(chunks)| && Number(pack, 16, 8) == |chunks|
  {
    hide Header, Footer, Data, EncodeEntries, Index, WritePack, ToLittleEndian, FromLittleEndian, ToHex, Number;
    var pack, index := WritePack(digest, chunks), EncodeEntries(digest, Index(digest, chunks));
    var count, indexOffset, footer := |chunks|, HEADER_SIZE + |Data(chunks)|, |pack| - FOOTER_SIZE;
    IndexShape(digest, chunks);
    Parts(digest, chunks);
    Widths();
    HeaderSlices(count, indexOffset);
    var h := pack[..HEADER_SIZE];
    assert pack[..8] == h[..8] && pack[8..10] == h[8..10] && pack[12..16] == h[12..16] && pack[16..24] == h[16..24];
    assert pack[24..32] == h[24..32] && pack[32..40] == h[32..40] && pack[40..48] == h[40..48];
    FieldReads(pack, 8, 1, 2);
    FieldReads(pack, 12, HEADER_SIZE, 4);
    FieldReads(pack, 16, count, 8);
    FieldReads(pack, 24, HEADER_SIZE, 8);
    FieldReads(pack, 32, indexOffset, 8);
    FieldReads(pack, 40, count * ENTRY_SIZE, 8);
    FooterSlices(count, indexOffset, digest(index));
    var f := pack[footer..];
    SubSlice(pack, footer, 0, 8);
    SubSlice(pack, footer, 8, 10);
    SubSlice(pack, footer, 12, 20);
    SubSlice(pack, footer, 20, 28);
    SubSlice(pack, footer, 28, 36);
    SubSlice(pack, footer, 40, 72);
    FieldReads(pack, footer + 8, 1, 2);
    FieldReads(pack, footer + 12, indexOffset, 8);
    FieldReads(pack, footer + 20, count * ENTRY_SIZE, 8);
    FieldReads(pack, footer + 28, count, 8);
  }

  lemma EntriesReadBack(digest: Bytes -> Digest, chunks: seq<Chunk>)
    requires Writable(digest, chunks)
    ensures FrameOk(WritePack(digest, chunks), digest)
    ensures EntriesOf(WritePack(digest, chunks), digest) == Entries(digest, chunks)
  {
    hide Header, Footer, Data, EncodeEntries, Index, WritePack, EncodeEntry, FrameOk, EntryAt, EntryOf, Number;
    FrameIsOk(digest, chunks);
    IndexShape(digest, chunks);
    Parts(digest, chunks);
    var pack, placed := WritePack(digest, chunks), Index(digest, chunks);
    var index, indexOffset := EncodeEntries(digest, placed), HEADER_SIZE + |Data(chunks)|;
    forall k | 0 <= k < |chunks| ensures EntryAt(pack, indexOffset + k * ENTRY_SIZE) == EntryOf(digest, placed[k]) {
      EntriesSlice(digest, placed, k);
      var start := indexOffset + k * ENTRY_SIZE;
      assert pack[start..start + ENTRY_SIZE] ==
          pack[indexOffset..indexOffset + |index|][k * ENTRY_SIZE..k * ENTRY_SIZE + ENTRY_SIZE];
      assert placed[k] in placed;
      EntryReadsBack(digest, placed[k], pack, start);
    }
  }

  lemma ReadsData(pack: Bytes, data: Bytes, offset: nat, length: nat)
    requires HEADER_SIZE <= offset && offset + length <= HEADER_SIZE + |data| <= |pack|
    requires pack[HEADER_SIZE..HEADER_SIZE + |data|] == data
    ensures pack[offset..offset + length] == data[offset - HEADER_SIZE..][..length]
  {
  }

  lemma EntriesAreOk(digest: Bytes -> Digest, chunks: seq<Chunk>)
    requires Writable(digest, chunks)
    ensures forall e | e in Entries(digest, chunks) :: EntryOk(e, HEADER_SIZE + |Data(chunks)|) && e.encodedLength > 0
  {
    hide Data, Index, WritePack, Place, ToHex;
    IndexShape(digest, chunks);
    forall e | e in Entries(digest, chunks) ensures EntryOk(e, HEADER_SIZE + |Data(chunks)|) && e.encodedLength > 0 {
      var k :| 0 <= k < |Index(digest, chunks)| && e == EntryOf(digest, Index(digest, chunks)[k]);
      assert Index(digest, chunks)[k] in Index(digest, chunks);
    }
  }

  lemma Accepted(digest: Bytes -> Digest, chunks: seq<Chunk>)
    requires Writable(digest, chunks)
    ensures PackOk(WritePack(digest, chunks), digest, None)
    ensures PackOk(WritePack(digest, chunks), digest, Some(ToHex(digest(WritePack(digest, chunks)))))
  {
    hide Header, Footer, Data, EncodeEntries, Index, WritePack, FrameOk, Number, Place, ToHex;
    var pack, entries := WritePack(digest, chunks), Entries(digest, chunks);
    FrameIsOk(digest, chunks);
    IndexShape(digest, chunks);
    EntriesReadBack(digest, chunks);
    EntriesAreOk(digest, chunks);
    SortedIsDistinct(entries);
    NeighbourCheckIsExact(entries);
    HexIsHash(digest(pack));
  }

  lemma EntryFound(digest: Bytes -> Digest, chunks: seq<Chunk>, c: Chunk) returns (p: Placed)
    requires Writable(digest, chunks) && c in chunks
    ensures p.chunk == c && InData(chunks, p)
    ensures Find(Entries(digest, chunks), HashOf(digest, c)) == Some(EntryOf(digest, p))
  {
    hide Data, Index, WritePack, Place, ToHex;
    var k :| 0 <= k < |chunks| && chunks[k] == c;
    PlaceShape(chunks, HEADER_SIZE, k);
    p := Place(chunks, HEADER_SIZE)[k];
    IndexShape(digest, chunks);
    var index, entries := Index(digest, chunks), Entries(digest, chunks);
    assert p in index;
    var i :| 0 <= i < |index| && index[i] == p;
    assert entries[i] == EntryOf(digest, p) && entries[i] in entries;
    FindFinds(entries, HashOf(digest, c));
    SortedIsDistinct(entries);
  }

  /** Whatever the writer lays out, the reader accepts, and each hash reads back as that chunk's bytes. */
  lemma RoundTrip(digest: Bytes -> Digest, chunks: seq<Chunk>, c: Chunk)
    requires Writable(digest, chunks) && c in chunks
    ensures
      var pack := WritePack(digest, chunks);
      && PackOk(pack, digest, None) && PackOk(pack, digest, Some(ToHex(digest(pack))))
      && (forall e | e in EntriesOf(pack, digest) :: e.offset + e.encodedLength <= |pack|)
      && ReadEncoded(pack, EntriesOf(pack, digest), digest, HashOf(digest, c)) == Ok(c.encoded)
  {
    hide Header, Footer, Data, EncodeEntries, Index, WritePack, FrameOk, Number, Place, ToHex, Entries;
    Accepted(digest, chunks);
    var pack := WritePack(digest, chunks);
    EntriesReadBack(digest, chunks);
    AcceptedPack(pack, digest, None);
    var p := EntryFound(digest, chunks, c);
    Parts(digest, chunks);
    HexIsHash(digest(c.encoded));
    ReadsData(pack, Data(chunks), p.offset, |c.encoded|);
  }

  /** With a decoder that undoes the frames, the raw bytes read back too. */
  lemma RawRoundTrip(digest: Bytes -> Digest, decode: Bytes -> Option<Bytes>, chunks: seq<Chunk>, c: Chunk)
    requires Writable(digest, chunks) && c in chunks && decode(c.encoded) == Some(c.raw)
    ensures
      var pack := WritePack(digest, chunks);
      && FrameOk(pack, digest) && (forall e | e in EntriesOf(pack, digest) :: e.offset + e.encodedLength <= |pack|)
      && ReadRaw(pack, EntriesOf(pack, digest), digest, decode, HashOf(digest, c)) == Ok(c.raw)
  {
    hide Header, Footer, Data, EncodeEntries, Index, WritePack, FrameOk, Number, Place, ToHex, Entries, ReadEncoded;
    RoundTrip(digest, chunks, c);
    EntriesReadBack(digest, chunks);
    var p := EntryFound(digest, chunks, c);
  }
}
