/** Fixed-width little-endian numbers and lower-case hexadecimal, as byte formats use them. */
module Encodings {
  import opened Common
  import opened Manifests

  type Digest = d: Bytes | |d| == 32 witness seq(32, _ => 0)

  function Power256(n: nat): nat {
    if n == 0 then 1 else 256 * Power256(n - 1)
  }

  function FromLittleEndian(s: Bytes): nat {
    if s == [] then 0 else s[0] + 256 * FromLittleEndian(s[1..])
  }

  function ToLittleEndian(v: nat, n: nat): (s: Bytes)
    ensures |s| == n
  {
    if n == 0 then [] else [v % 256] + ToLittleEndian(v / 256, n - 1)
  }

  lemma {:induction false} LittleEndianRoundTrip(v: nat, n: nat)
    requires v < Power256(n)
    ensures FromLittleEndian(ToLittleEndian(v, n)) == v
  {
    if n > 0 {
      LittleEndianRoundTrip(v / 256, n - 1);
      assert ToLittleEndian(v, n)[1..] == ToLittleEndian(v / 256, n - 1);
    }
  }

  /** Each further byte is worth 256 times the one before it. */
  lemma {:induction false} LastByteIsHighest(s: Bytes, last: Byte)
    ensures FromLittleEndian(s + [last]) == FromLittleEndian(s) + last * Power256(|s|)
  {
    if s == [] {
      assert [last][1..] == [] && s + [last] == [last];
    } else {
      LastByteIsHighest(s[1..], last);
      assert (s + [last])[1..] == s[1..] + [last] && (s + [last])[0] == s[0];
      assert 256 * (last * Power256(|s| - 1)) == last * (256 * Power256(|s| - 1));
    }
  }

  lemma Widths()
    ensures Power256(2) == 0x1_0000 && Power256(4) == 0x1_0000_0000 && Power256(8) == 0x1_0000_0000_0000_0000
  {
    assert Power256(1) == 256;
    assert Power256(3) == 0x100_0000;
    assert Power256(5) == 256 * Power256(4);
    assert Power256(6) == 256 * Power256(5);
    assert Power256(7) == 256 * Power256(6);
  }

  function HexDigit(n: nat): char
    requires n < 16
  {
    if n < 10 then '0' + n as char else 'a' + (n - 10) as char
  }

  function ToHex(s: Bytes): (h: string)
    ensures |h| == 2 * |s|
  {
    if s == [] then [] else [HexDigit(s[0] / 16), HexDigit(s[0] % 16)] + ToHex(s[1..])
  }

  lemma {:induction false} HexDigitsAt(s: Bytes, i: nat)
    requires i < 2 * |s|
    ensures '0' <= ToHex(s)[i] <= '9' || 'a' <= ToHex(s)[i] <= 'f'
  {
    if i >= 2 {
      HexDigitsAt(s[1..], i - 2);
    }
  }

  /** Two digits for each byte, the higher half first. */
  lemma {:induction false} HexSpells(s: Bytes, i: nat)
    requires i < |s|
    ensures ToHex(s)[2 * i] == "0123456789abcdef"[s[i] / 16] && ToHex(s)[2 * i + 1] == "0123456789abcdef"[s[i] % 16]
  {
    if i > 0 {
      HexSpells(s[1..], i - 1);
      assert ToHex(s)[2 * i] == ToHex(s[1..])[2 * (i - 1)] && ToHex(s)[2 * i + 1] == ToHex(s[1..])[2 * (i - 1) + 1];
    } else {
      DigitSpelled(s[0] / 16);
      DigitSpelled(s[0] % 16);
    }
  }

  lemma DigitSpelled(n: nat)
    requires n < 16
    ensures HexDigit(n) == "0123456789abcdef"[n]
  {
  }

  /** The hexadecimal form of a digest is what the validators call a hash. */
  lemma HexIsHash(d: Digest)
    ensures IsHash(ToHex(d))
  {
    forall i | 0 <= i < 64 ensures '0' <= ToHex(d)[i] <= '9' || 'a' <= ToHex(d)[i] <= 'f' {
      HexDigitsAt(d, i);
    }
  }

  lemma {:induction false} HexIsInjective(a: Bytes, b: Bytes)
    requires ToHex(a) == ToHex(b)
    ensures a == b
  {
    assert |a| == |b|;
    if a != [] {
      assert ToHex(a)[2..] == ToHex(a[1..]) && ToHex(b)[2..] == ToHex(b[1..]);
      HexIsInjective(a[1..], b[1..]);
      assert ToHex(a)[0] == ToHex(b)[0] && ToHex(a)[1] == ToHex(b)[1];
      assert a == [a[0]] + a[1..] && b == [b[0]] + b[1..];
    }
  }
}

/** The strict reader of physical packs: header, chunk data, sorted index, footer. */
module PackFormat {
  import opened Common
  import opened Encodings
  import opened Manifests
  import Ordinal
  import opened Sorting

  const HEADER_SIZE := 64
  const ENTRY_SIZE := 96
  const FOOTER_SIZE := 72
  const INT_MAX := 0x7FFF_FFFF
  const MAX_PACK_BYTES := 8 * 1024 * 1024 * 1024
  const MAX_CHUNK_BYTES := 2 * 1024 * 1024 * 1024
  const ZSTD := 1
  const HEADER_MAGIC: Bytes := [0x4C, 0x47, 0x52, 0x50, 0x41, 0x43, 0x4B, 0x31]
  const FOOTER_MAGIC: Bytes := [0x4C, 0x47, 0x52, 0x50, 0x46, 0x54, 0x52, 0x31]

  datatype Entry = Entry(encodedHash: Hash, rawHash: Hash, offset: nat, encodedLength: nat, rawLength: nat,
                         compression: nat, flags: nat)

  datatype PackError =
    | Truncated | TooLarge | BadHeaderMagic | BadVersion | BadHeaderLength | BadDataOffset | BadIndexLength
    | BadFooterMagic | BadFooterVersion | FooterMismatch | BadIndexBounds | IndexTooLarge | IndexDigestMismatch
    | OversizedChunk | UnsupportedCompression | NotSorted | OutsideData | Overlap | InvalidHash | IdentityMismatch
    | NotFound | DigestMismatch | RawMismatch

  function Number(bytes: Bytes, at: nat, width: nat): nat
    requires at + width <= |bytes|
  {
    FromLittleEndian(bytes[at..at + width])
  }

  // ---- The format, stated as conditions on the whole array.

  /** Header and footer agree with each other and with the length of the file, and the index has its digest. */
  predicate FrameOk(bytes: Bytes, digest: Bytes -> Digest) {
    && HEADER_SIZE + FOOTER_SIZE <= |bytes| <= MAX_PACK_BYTES
    && var footer := |bytes| - FOOTER_SIZE;
    && bytes[..8] == HEADER_MAGIC
    && Number(bytes, 8, 2) == 1
    && Number(bytes, 12, 4) == HEADER_SIZE
    && Number(bytes, 24, 8) == HEADER_SIZE
    && Number(bytes, 16, 8) <= INT_MAX
    && Number(bytes, 16, 8) * ENTRY_SIZE == Number(bytes, 40, 8)
    && bytes[footer..footer + 8] == FOOTER_MAGIC
    && Number(bytes, footer + 8, 2) == 1
    && Number(bytes, footer + 12, 8) == Number(bytes, 32, 8)
    && Number(bytes, footer + 20, 8) == Number(bytes, 40, 8)
    && Number(bytes, footer + 28, 8) == Number(bytes, 16, 8)
    && Number(bytes, 32, 8) + Number(bytes, 40, 8) == footer
    && HEADER_SIZE <= Number(bytes, 32, 8) <= INT_MAX
    && Number(bytes, 40, 8) <= INT_MAX
    && ToHex(digest(bytes[Number(bytes, 32, 8)..footer])) == ToHex(bytes[footer + 40..footer + 72])
  }

  function EntryAt(bytes: Bytes, start: nat): Entry
    requires start + ENTRY_SIZE <= |bytes|
  {
    Entry(ToHex(bytes[start..start + 32]), ToHex(bytes[start + 32..start + 64]),
          Number(bytes, start + 64, 8), Number(bytes, start + 72, 8), Number(bytes, start + 80, 8),
          Number(bytes, start + 88, 4), Number(bytes, start + 92, 4))
  }

  function EntryCount(bytes: Bytes, digest: Bytes -> Digest): (count: nat)
    requires FrameOk(bytes, digest)
    ensures forall k: nat | k < count :: Number(bytes, 32, 8) + k * ENTRY_SIZE + ENTRY_SIZE <= |bytes| - FOOTER_SIZE
  {
    Number(bytes, 16, 8)
  }

  function EntriesOf(bytes: Bytes, digest: Bytes -> Digest): seq<Entry>
    requires FrameOk(bytes, digest)
  {
    seq(EntryCount(bytes, digest), k requires 0 <= k < EntryCount(bytes, digest) =>
      EntryAt(bytes, Number(bytes, 32, 8) + k * ENTRY_SIZE))
  }

  predicate EntryOk(entry: Entry, indexOffset: nat) {
    && entry.rawLength <= MAX_CHUNK_BYTES && entry.encodedLength <= MAX_CHUNK_BYTES
    && entry.compression == ZSTD
    && HEADER_SIZE <= entry.offset && entry.offset + entry.encodedLength <= indexOffset
  }

  predicate Before(a: Entry, b: Entry) {
    a.offset <= b.offset
  }

  predicate StrictlySorted(entries: seq<Entry>) {
    forall k | 0 < k < |entries| :: Ordinal.Compare(entries[k - 1].encodedHash, entries[k].encodedHash) < 0
  }

  predicate NeighboursApart(sorted: seq<Entry>) {
    forall k | 0 < k < |sorted| :: sorted[k - 1].offset + sorted[k - 1].encodedLength <= sorted[k].offset
  }

  predicate PackOk(bytes: Bytes, digest: Bytes -> Digest, expected: Option<Hash>) {
    && FrameOk(bytes, digest)
    && (forall e | e in EntriesOf(bytes, digest) :: EntryOk(e, Number(bytes, 32, 8)))
    && StrictlySorted(EntriesOf(bytes, digest))
    && NeighboursApart(Sort(EntriesOf(bytes, digest), Before))
    && (expected.Some? ==> IsHash(expected.value) && ToHex(digest(bytes)) == expected.value)
  }

  // ---- The parser.

  method CheckFrame(bytes: Bytes, digest: Bytes -> Digest) returns (r: Option<PackError>)
    ensures r.None? <==> FrameOk(bytes, digest)
  {
    if |bytes| < HEADER_SIZE + FOOTER_SIZE { return Some(Truncated); }
    if |bytes| > MAX_PACK_BYTES { return Some(TooLarge); }
    if bytes[..8] != HEADER_MAGIC { return Some(BadHeaderMagic); }
    if Number(bytes, 8, 2) != 1 { return Some(BadVersion); }
    if Number(bytes, 12, 4) != HEADER_SIZE { return Some(BadHeaderLength); }
    var entryCount, dataOffset := Number(bytes, 16, 8), Number(bytes, 24, 8);
    var indexOffset, indexLength := Number(bytes, 32, 8), Number(bytes, 40, 8);
    if dataOffset != HEADER_SIZE { return Some(BadDataOffset); }
    if entryCount > INT_MAX || entryCount * ENTRY_SIZE != indexLength { return Some(BadIndexLength); }
    var footer := |bytes| - FOOTER_SIZE;
    if bytes[footer..footer + 8] != FOOTER_MAGIC { return Some(BadFooterMagic); }
    if Number(bytes, footer + 8, 2) != 1 { return Some(BadFooterVersion); }
    if Number(bytes, footer + 12, 8) != indexOffset || Number(bytes, footer + 20, 8) != indexLength
       || Number(bytes, footer + 28, 8) != entryCount {
      return Some(FooterMismatch);
    }
    if indexOffset + indexLength != footer || indexOffset < dataOffset { return Some(BadIndexBounds); }
    if indexOffset > INT_MAX || indexLength > INT_MAX { return Some(IndexTooLarge); }
    if ToHex(digest(bytes[indexOffset..indexOffset + indexLength])) != ToHex(bytes[footer + 40..footer + 72]) {
      return Some(IndexDigestMismatch);
    }
    return None;
  }

  /** The index loop: appends checked entries and remembers the previous hash. */
  method ParseEntries(bytes: Bytes, digest: Bytes -> Digest) returns (r: Result<seq<Entry>, PackError>)
    requires FrameOk(bytes, digest)
    ensures r.Ok? <==> (forall e | e in EntriesOf(bytes, digest) :: EntryOk(e, Number(bytes, 32, 8)))
                       && StrictlySorted(EntriesOf(bytes, digest))
    ensures r.Ok? ==> r.value == EntriesOf(bytes, digest)
  {
    hide EntryAt, Ordinal.Compare, Number, FrameOk;
    IndexIsInside(bytes, digest);
    var indexOffset := Number(bytes, 32, 8);
    ghost var all := EntriesOf(bytes, digest);
    var parsed: seq<Entry> := [];
    var previous: Option<Hash> := None;
    for position := 0 to EntryCount(bytes, digest)
      invariant parsed == all[..position]
      invariant forall e | e in parsed :: EntryOk(e, indexOffset)
      invariant StrictlySorted(parsed)
      invariant previous == if parsed == [] then None else Some(parsed[|parsed| - 1].encodedHash)
    {
      var entry := EntryAt(bytes, indexOffset + position * ENTRY_SIZE);
      assert entry == all[position] && entry in all && all[..position + 1] == all[..position] + [entry];
      if entry.rawLength > MAX_CHUNK_BYTES || entry.encodedLength > MAX_CHUNK_BYTES { return Err(OversizedChunk); }
      if entry.compression != ZSTD { return Err(UnsupportedCompression); }
      if previous.Some? && Ordinal.Compare(previous.value, entry.encodedHash) >= 0 {
        assert !StrictlySorted(all) by {
          assert Ordinal.Compare(all[position - 1].encodedHash, all[position].encodedHash) >= 0;
        }
        return Err(NotSorted);
      }
      previous := Some(entry.encodedHash);
      if entry.offset < HEADER_SIZE || entry.offset + entry.encodedLength > indexOffset { return Err(OutsideData); }
      parsed := parsed + [entry];
    }
    assert all[..|all|] == all;
    return Ok(parsed);
  }

  /** Compares each entry, in order of offset, with the next one only. */
  method CheckNeighbours(entries: seq<Entry>) returns (apart: bool)
    ensures apart <==> NeighboursApart(Sort(entries, Before))
  {
    hide Sort;
    var sorted := Sort(entries, Before);
    if sorted == [] {
      return true;
    }
    for k := 1 to |sorted|
      invariant NeighboursApart(sorted[..k])
    {
      if sorted[k - 1].offset + sorted[k - 1].encodedLength > sorted[k].offset {
        return false;
      }
    }
    assert sorted[..|sorted|] == sorted;
    return true;
  }

  /** Accepts exactly the arrays that meet the format, and returns exactly their index entries. */
  method Parse(bytes: Bytes, digest: Bytes -> Digest, expected: Option<Hash>) returns (r: Result<seq<Entry>, PackError>)
    ensures r.Ok? <==> PackOk(bytes, digest, expected)
    ensures r.Ok? ==> r.value == EntriesOf(bytes, digest)
  {
    var frame := CheckFrame(bytes, digest);
    if frame.Some? {
      return Err(frame.value);
    }
    r := ParseEntries(bytes, digest);
    if r.Err? {
      return;
    }
    var apart := CheckNeighbours(r.value);
    if !apart {
      return Err(Overlap);
    }
    if expected.Some? {
      if !IsHash(expected.value) {
        return Err(InvalidHash);
      }
      if ToHex(digest(bytes)) != expected.value {
        return Err(IdentityMismatch);
      }
    }
  }

  function Find(entries: seq<Entry>, hash: Hash): Option<Entry> {
    if entries == [] then None
    else if entries[0].encodedHash == hash then Some(entries[0])
    else Find(entries[1..], hash)
  }

  /** The chunk bytes an entry points at, once they have the digest they are filed under. */
  function ReadEncoded(bytes: Bytes, entries: seq<Entry>, digest: Bytes -> Digest, hash: Hash): Result<Bytes, PackError>
    requires forall e | e in entries :: e.offset + e.encodedLength <= |bytes|
  {
    if !IsHash(hash) then Err(InvalidHash)
    else if Find(entries, hash).None? then Err(NotFound)
    else
      FindFinds(entries, hash);
      var entry := Find(entries, hash).value;
      var chunk := bytes[entry.offset..entry.offset + entry.encodedLength];
      if ToHex(digest(chunk)) != entry.encodedHash then Err(DigestMismatch) else Ok(chunk)
  }

  function ReadRaw(bytes: Bytes, entries: seq<Entry>, digest: Bytes -> Digest, decode: Bytes -> Option<Bytes>,
                   hash: Hash)
    : Result<Bytes, PackError>
    requires forall e | e in entries :: e.offset + e.encodedLength <= |bytes|
  {
    if Find(entries, hash).None? then Err(NotFound)
    else
      match ReadEncoded(bytes, entries, digest, hash)
      case Err(error) => Err(error)
      case Ok(encoded) =>
        match decode(encoded)
        case None => Err(RawMismatch)
        case Some(raw) =>
          var entry := Find(entries, hash).value;
          if |raw| != entry.rawLength || ToHex(digest(raw)) != entry.rawHash then Err(RawMismatch) else Ok(raw)
  }

  lemma {:induction false} FindFinds(entries: seq<Entry>, hash: Hash)
    ensures Find(entries, hash).Some? ==>
              Find(entries, hash).value in entries && Find(entries, hash).value.encodedHash == hash
    ensures (exists e | e in entries :: e.encodedHash == hash) ==> Find(entries, hash).Some?
  {
    if entries == [] {
    } else {
      FindFinds(entries[1..], hash);
      assert entries == [entries[0]] + entries[1..];
    }
  }

  // ---- What an accepted file guarantees about its ranges.

  predicate Apart(a: Entry, b: Entry) {
    a.offset + a.encodedLength <= b.offset || b.offset + b.encodedLength <= a.offset
  }

  ghost predicate PairwiseApart(entries: seq<Entry>) {
    forall a, b | a in entries && b in entries && a != b :: Apart(a, b)
  }

  function TotalLength(entries: seq<Entry>): nat {
    if entries == [] then 0 else entries[0].encodedLength + TotalLength(entries[1..])
  }

  lemma OffsetsAreOrdered()
    ensures TotalPreorder(Before)
  {
  }

  lemma {:induction false} SortedHashes(entries: seq<Entry>, i: nat, j: nat)
    requires StrictlySorted(entries) && i < j < |entries|
    ensures Ordinal.Compare(entries[i].encodedHash, entries[j].encodedHash) < 0
  {
    if i + 1 < j {
      SortedHashes(entries, i, j - 1);
      Ordinal.Transitivity(entries[i].encodedHash, entries[j - 1].encodedHash, entries[j].encodedHash);
    }
  }

  lemma SortedIsDistinct(entries: seq<Entry>)
    requires StrictlySorted(entries)
    ensures Distinct(entries)
    ensures forall i, j | 0 <= i < j < |entries| :: entries[i].encodedHash != entries[j].encodedHash
  {
    forall i, j | 0 <= i < j < |entries| ensures entries[i].encodedHash != entries[j].encodedHash {
      SortedHashes(entries, i, j);
      Ordinal.Antisymmetry(entries[i].encodedHash, entries[j].encodedHash);
    }
  }

  /** In an order where every neighbour is apart, so is every pair. */
  lemma {:induction false} NeighboursToPairs(sorted: seq<Entry>, i: nat, j: nat)
    requires NeighboursApart(sorted) && i < j < |sorted|
    ensures sorted[i].offset + sorted[i].encodedLength <= sorted[j].offset
  {
    if i + 1 < j {
      NeighboursToPairs(sorted, i, j - 1);
    }
  }

  lemma {:induction false} LengthsFit(sorted: seq<Entry>, limit: nat)
    requires NeighboursApart(sorted) && (forall e | e in sorted :: e.offset + e.encodedLength <= limit)
    requires sorted != []
    ensures sorted[0].offset + TotalLength(sorted) <= limit
  {
    assert sorted[0] in sorted;
    if |sorted| > 1 {
      var rest := sorted[1..];
      assert forall k | 0 < k < |rest| :: rest[k - 1] == sorted[k] && rest[k] == sorted[k + 1];
      LengthsFit(rest, limit);
      assert sorted[0].offset + sorted[0].encodedLength <= sorted[1].offset;
    }
  }

  lemma {:induction false} InsertTotal(e: Entry, entries: seq<Entry>)
    ensures TotalLength(Insert(e, entries, Before)) == e.encodedLength + TotalLength(entries)
  {
    if entries != [] && !Before(e, entries[0]) {
      InsertTotal(e, entries[1..]);
    }
  }

  lemma {:induction false} SortTotal(entries: seq<Entry>)
    ensures TotalLength(Sort(entries, Before)) == TotalLength(entries)
  {
    if entries == [] {
    } else {
      SortTotal(entries[1..]);
      InsertTotal(entries[0], Sort(entries[1..], Before));
    }
  }

  /** The neighbour check settles every pair. */
  lemma NeighbourCheckSuffices(entries: seq<Entry>)
    requires NeighboursApart(Sort(entries, Before))
    ensures PairwiseApart(entries)
  {
    var sorted := Sort(entries, Before);
    OffsetsAreOrdered();
    forall a, b | a in entries && b in entries && a != b ensures Apart(a, b) {
      SortMembers(entries, Before, a);
      SortMembers(entries, Before, b);
      var i :| 0 <= i < |sorted| && sorted[i] == a;
      var j :| 0 <= j < |sorted| && sorted[j] == b;
      if i < j {
        NeighboursToPairs(sorted, i, j);
      } else {
        NeighboursToPairs(sorted, j, i);
      }
    }
  }

  /** For chunks of positive length the neighbour check accepts exactly the indexes without overlap. */
  lemma NeighbourCheckIsExact(entries: seq<Entry>)
    requires Distinct(entries) && forall e | e in entries :: e.encodedLength > 0
    ensures NeighboursApart(Sort(entries, Before)) <==> PairwiseApart(entries)
  {
    var sorted := Sort(entries, Before);
    OffsetsAreOrdered();
    SortCorrect(entries, Before);
    if PairwiseApart(entries) {
      forall k | 0 < k < |sorted| ensures sorted[k - 1].offset + sorted[k - 1].encodedLength <= sorted[k].offset {
        var a, b := sorted[k - 1], sorted[k];
        SortMembers(entries, Before, a);
        SortMembers(entries, Before, b);
        if a == b {
          CountTwice(sorted, k - 1, k);
          CountOnce(entries, a);
        }
        assert Apart(a, b) && Before(a, b);
      }
    } else {
      if NeighboursApart(sorted) {
        NeighbourCheckSuffices(entries);
      }
    }
  }

  /** An accepted pack: every read stays inside the data region, no two ranges meet, and together they fit. */
  lemma AcceptedPack(bytes: Bytes, digest: Bytes -> Digest, expected: Option<Hash>)
    requires PackOk(bytes, digest, expected)
    ensures
      var entries, indexOffset := EntriesOf(bytes, digest), Number(bytes, 32, 8);
      && Distinct(entries) && PairwiseApart(entries)
      && (forall e | e in entries ::
            HEADER_SIZE <= e.offset && e.offset + e.encodedLength <= indexOffset <= |bytes| - FOOTER_SIZE)
      && TotalLength(entries) <= indexOffset - HEADER_SIZE
      && (forall e | e in entries :: Find(entries, e.encodedHash) == Some(e))
      && forall i, j | 0 <= i < j < |entries| :: Ordinal.Below(entries[i].encodedHash, entries[j].encodedHash)
  {
    hide Number, FrameOk, EntriesOf, Ordinal.Below, Ordinal.Compare;
    var entries := EntriesOf(bytes, digest);
    SortedIsDistinct(entries);
    forall i, j | 0 <= i < j < |entries| ensures Ordinal.Below(entries[i].encodedHash, entries[j].encodedHash) {
      SortedHashes(entries, i, j);
      Ordinal.CompareMeans(entries[i].encodedHash, entries[j].encodedHash);
    }
    NeighbourCheckSuffices(entries);
    IndexIsInside(bytes, digest);
    AcceptedLengths(entries, Number(bytes, 32, 8));
    forall e | e in entries ensures Find(entries, e.encodedHash) == Some(e) {
      FindFinds(entries, e.encodedHash);
    }
  }

  /**
   * What a sound frame is, in numbers: the marks LGRPACK1 and LGRPFTR1, version 1, a header of 64 bytes, an index of 96
   * bytes for each entry right before a footer of 72, all within the limits, and the digest of the index.
   */
  lemma FrameIff(bytes: Bytes, digest: Bytes -> Digest)
    ensures FrameOk(bytes, digest) <==>
              && 136 <= |bytes| <= 8_589_934_592
              && var footer, count := |bytes| - 72, Number(bytes, 16, 8);
              && bytes[..8] == [76, 71, 82, 80, 65, 67, 75, 49]
              && bytes[footer..footer + 8] == [76, 71, 82, 80, 70, 84, 82, 49]
              && Number(bytes, 8, 2) == 1 == Number(bytes, footer + 8, 2)
              && Number(bytes, 12, 4) == 64 == Number(bytes, 24, 8)
              && 96 * count <= 2_147_483_647 && 64 <= footer - 96 * count <= 2_147_483_647
              && Number(bytes, 32, 8) == footer - 96 * count == Number(bytes, footer + 12, 8)
              && Number(bytes, 40, 8) == 96 * count == Number(bytes, footer + 20, 8)
              && Number(bytes, footer + 28, 8) == count
              && digest(bytes[footer - 96 * count..footer]) == bytes[footer + 40..]
  {
    hide Number, ToHex;
    if 136 <= |bytes| {
      var footer, count := |bytes| - 72, Number(bytes, 16, 8);
      assert bytes[footer + 40..footer + 72] == bytes[footer + 40..];
      if 64 <= footer - 96 * count {
        var index := bytes[footer - 96 * count..footer];
        SameHex(digest(index), bytes[footer + 40..]);
      }
    }
  }

  lemma SameHex(a: Bytes, b: Bytes)
    ensures ToHex(a) == ToHex(b) <==> a == b
  {
    if ToHex(a) == ToHex(b) {
      HexIsInjective(a, b);
    }
  }

  /** Exactly which entries are accepted. */
  lemma EntryIff(entry: Entry, indexOffset: nat)
    ensures EntryOk(entry, indexOffset) <==>
              && entry.rawLength <= 2_147_483_648 && entry.encodedLength <= 2_147_483_648 && entry.compression == 1
              && 64 <= entry.offset && entry.offset + entry.encodedLength <= indexOffset
  {
  }

  /** Where an entry of an accepted index says that its chunk is. */
  function BytesAt(bytes: Bytes, e: Entry): Bytes
    requires e.offset + e.encodedLength <= |bytes|
  {
    bytes[e.offset..e.offset + e.encodedLength]
  }

  /**
   * From an index in which every entry is found under its hash, a read returns exactly the bytes of the entry asked
   * for, when their digest is that hash; there is no other answer for a hash that no entry has.
   */
  lemma ReadEncodedIff(bytes: Bytes, entries: seq<Entry>, digest: Bytes -> Digest, hash: Hash, chunk: Bytes)
    requires forall e | e in entries :: e.offset + e.encodedLength <= |bytes| && Find(entries, e.encodedHash) == Some(e)
    ensures ReadEncoded(bytes, entries, digest, hash) == Ok(chunk) <==>
              && IsHash(hash) && ToHex(digest(chunk)) == hash
              && exists e | e in entries :: e.encodedHash == hash && BytesAt(bytes, e) == chunk
    ensures ReadEncoded(bytes, entries, digest, hash) == Err(NotFound) <==>
              IsHash(hash) && forall e | e in entries :: e.encodedHash != hash
  {
    FindFinds(entries, hash);
  }

  /** A raw read also needs the recorded raw size and digest. */
  lemma ReadRawIff(bytes: Bytes, entries: seq<Entry>, digest: Bytes -> Digest, decode: Bytes -> Option<Bytes>,
                   hash: Hash, raw: Bytes)
    requires forall e | e in entries :: e.offset + e.encodedLength <= |bytes| && Find(entries, e.encodedHash) == Some(e)
    ensures ReadRaw(bytes, entries, digest, decode, hash) == Ok(raw) <==>
              && IsHash(hash)
              && exists e | e in entries ::
                  && e.encodedHash == hash && ToHex(digest(BytesAt(bytes, e))) == hash
                  && decode(BytesAt(bytes, e)) == Some(raw)
                  && |raw| == e.rawLength && ToHex(digest(raw)) == e.rawHash
  {
    FindFinds(entries, hash);
  }

  lemma IndexIsInside(bytes: Bytes, digest: Bytes -> Digest)
    requires FrameOk(bytes, digest)
    ensures HEADER_SIZE <= Number(bytes, 32, 8) <= |bytes| - FOOTER_SIZE
  {
  }

  lemma AcceptedLengths(entries: seq<Entry>, indexOffset: nat)
    requires HEADER_SIZE <= indexOffset && NeighboursApart(Sort(entries, Before))
    requires forall e | e in entries :: EntryOk(e, indexOffset)
    ensures TotalLength(entries) <= indexOffset - HEADER_SIZE
  {
    hide Sort;
    var sorted := Sort(entries, Before);
    SortTotal(entries);
    OffsetsAreOrdered();
    forall e ensures e in sorted <==> e in entries {
      SortMembers(entries, Before, e);
    }
    if sorted != [] {
      LengthsFit(sorted, indexOffset);
      assert sorted[0] in sorted;
    }
  }
}
