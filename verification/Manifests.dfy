/** Build manifests: the recipes of a build's files and the checks made on them. */
module Manifests {
  import opened Common

  const U64_LIMIT: nat := 0x1_0000_0000_0000_0000

  type Path = string

  type Hash = string

  datatype ChunkRef = ChunkRef(rawHash: Hash, rawSize: nat, encodedHash: Hash, encodedSize: nat, objectKey: string)

  datatype FileRecipe = FileRecipe(path: Path, size: nat, blake3: Hash, chunks: seq<ChunkRef>)

  datatype Manifest = Manifest(gameId: string, buildId: string, files: seq<FileRecipe>)

  datatype ManifestError =
    | DuplicatePath(path: Path)
    | BadHash(value: Hash)
    | FileSize(path: Path)
    | ChunkSize(path: Path)
    | ObjectKeyMismatch(key: string)
    | ConflictingChunk(hash: Hash)

  predicate IsHash(value: string) {
    |value| == 64 && forall i | 0 <= i < 64 :: '0' <= value[i] <= '9' || 'a' <= value[i] <= 'f'
  }

  /** Sixty-four lower-case hexadecimal digits. */
  lemma HashDigits(value: string)
    ensures IsHash(value) <==> |value| == 64 && forall c | c in value :: c in "0123456789abcdef"
  {
    if |value| == 64 && forall c | c in value :: c in "0123456789abcdef" {
      assert forall i | 0 <= i < 64 :: value[i] in "0123456789abcdef";
    }
    forall c: char ensures c in "0123456789abcdef" <==> '0' <= c <= '9' || 'a' <= c <= 'f' {
      DigitCharacter(c);
    }
  }

  lemma DigitCharacter(c: char)
    ensures c in "0123456789abcdef" <==> '0' <= c <= '9' || 'a' <= c <= 'f'
  {
    var digits := "0123456789abcdef";
    if '0' <= c <= '9' {
      assert digits[c as int - 48] == c;
    } else if 'a' <= c <= 'f' {
      assert digits[c as int - 87] == c;
    }
  }

  function ObjectKey(encodedHash: Hash): string {
    "chunks/encoded/" + encodedHash + ".bin"
  }

  function RawTotal(chunks: seq<ChunkRef>): nat {
    if chunks == [] then 0 else chunks[0].rawSize + RawTotal(chunks[1..])
  }

  function SizeTotal(files: seq<FileRecipe>): nat {
    if files == [] then 0 else SizeTotal(files[..|files| - 1]) + files[|files| - 1].size
  }

  function Paths(files: seq<FileRecipe>): set<Path> {
    set f | f in files :: f.path
  }

  // What a valid manifest is, stated without the order in which it is checked.

  predicate DistinctPaths(files: seq<FileRecipe>) {
    forall i, j | 0 <= i < j < |files| :: files[i].path != files[j].path
  }

  predicate ValidChunk(chunk: ChunkRef) {
    && chunk.rawSize != 0 && chunk.encodedSize != 0
    && IsHash(chunk.rawHash) && IsHash(chunk.encodedHash)
    && chunk.objectKey == ObjectKey(chunk.encodedHash)
  }

  predicate ValidFile(file: FileRecipe) {
    && IsHash(file.blake3)
    && file.size == RawTotal(file.chunks) < U64_LIMIT
    && forall c | c in file.chunks :: ValidChunk(c)
  }

  function ChunksOf(files: seq<FileRecipe>): set<ChunkRef> {
    set f, c | f in files && c in f.chunks :: c
  }

  predicate Agree(chunks: set<ChunkRef>) {
    forall c, d | c in chunks && d in chunks && c.encodedHash == d.encodedHash :: c == d
  }

  predicate ValidFiles(files: seq<FileRecipe>) {
    DistinctPaths(files) && (forall f | f in files :: ValidFile(f)) && Agree(ChunksOf(files))
  }

  lemma {:induction false} RawTotalSplit(left: seq<ChunkRef>, right: seq<ChunkRef>)
    ensures RawTotal(left + right) == RawTotal(left) + RawTotal(right)
  {
    if left == [] {
      assert left + right == right;
    } else {
      RawTotalSplit(left[1..], right);
      assert (left + right)[1..] == left[1..] + right;
    }
  }

  /** The checked sum of raw sizes: no value once a partial sum leaves the 64-bit range. */
  method CheckedRawTotal(chunks: seq<ChunkRef>) returns (total: Option<nat>)
    ensures total == if RawTotal(chunks) <= 18_446_744_073_709_551_615 then Some(RawTotal(chunks)) else None
  {
    var sum := 0;
    for i := 0 to |chunks|
      invariant sum == RawTotal(chunks[..i]) < U64_LIMIT
    {
      assert chunks[..i + 1] == chunks[..i] + [chunks[i]];
      RawTotalSplit(chunks[..i], [chunks[i]]);
      assert chunks == chunks[..i + 1] + chunks[i + 1..];
      RawTotalSplit(chunks[..i + 1], chunks[i + 1..]);
      if sum + chunks[i].rawSize >= U64_LIMIT {
        return None;
      }
      sum := sum + chunks[i].rawSize;
    }
    assert chunks[..|chunks|] == chunks;
    return Some(sum);
  }

  /** Every chunk met so far is the one recorded under its encoded hash, and every record was met. */
  ghost predicate Recorded(known: map<Hash, ChunkRef>, seen: set<ChunkRef>) {
    && (forall c | c in seen :: c.encodedHash in known && known[c.encodedHash] == c)
    && (forall h | h in known :: known[h] in seen && known[h].encodedHash == h)
  }

  /** One file's chunk loop: either it finds the fault, or it records exactly this file's chunks as well. */
  method ValidateChunks(file: FileRecipe, before: map<Hash, ChunkRef>, ghost seen: set<ChunkRef>)
    returns (r: Result<map<Hash, ChunkRef>, ManifestError>)
    requires Recorded(before, seen)
    ensures r.Ok? ==> Recorded(r.value, seen + Elements(file.chunks)) && forall c | c in file.chunks :: ValidChunk(c)
    ensures r.Err? ==>
              || (exists c | c in file.chunks :: !ValidChunk(c))
              || !Agree(seen + Elements(file.chunks))
  {
    var known := before;
    for i := 0 to |file.chunks|
      invariant Recorded(known, seen + Elements(file.chunks[..i]))
      invariant forall c | c in file.chunks[..i] :: ValidChunk(c)
    {
      var chunk := file.chunks[i];
      if chunk.rawSize == 0 || chunk.encodedSize == 0 {
        return Err(ChunkSize(file.path));
      }
      if !IsHash(chunk.rawHash) {
        return Err(BadHash(chunk.rawHash));
      }
      if !IsHash(chunk.encodedHash) {
        return Err(BadHash(chunk.encodedHash));
      }
      if chunk.objectKey != ObjectKey(chunk.encodedHash) {
        return Err(ObjectKeyMismatch(chunk.objectKey));
      }
      if chunk.encodedHash in known {
        if known[chunk.encodedHash] != chunk {
          assert known[chunk.encodedHash] in seen + Elements(file.chunks);
          return Err(ConflictingChunk(chunk.encodedHash));
        }
      } else {
        known := known[chunk.encodedHash := chunk];
      }
      assert Elements(file.chunks[..i + 1]) == Elements(file.chunks[..i]) + {chunk};
    }
    assert file.chunks[..|file.chunks|] == file.chunks;
    return Ok(known);
  }

  lemma PathsGrow(files: seq<FileRecipe>, i: nat)
    requires i < |files|
    ensures files[..i + 1] == files[..i] + [files[i]]
    ensures Paths(files[..i + 1]) == Paths(files[..i]) + {files[i].path}
    ensures DistinctPaths(files) ==> files[i].path !in Paths(files[..i])
  {
    var longer, shorter := files[..i + 1], files[..i];
    assert longer == shorter + [files[i]];
    assert forall f | f in shorter :: f in longer;
    assert forall f | f in longer :: f in shorter || f == files[i];
  }

  lemma PathsDiffer(files: seq<FileRecipe>, i: nat)
    requires i < |files| && DistinctPaths(files[..i])
    ensures DistinctPaths(files[..i + 1]) <==> files[i].path !in Paths(files[..i])
    ensures files[i].path in Paths(files[..i]) ==> !DistinctPaths(files)
  {
    var longer, shorter := files[..i + 1], files[..i];
    assert longer == shorter + [files[i]];
    if files[i].path in Paths(shorter) {
      var k :| 0 <= k < i && shorter[k].path == files[i].path;
      assert longer[k].path == longer[i].path && files[k].path == files[i].path;
    } else {
      assert forall k | 0 <= k < i :: shorter[k] in shorter;
    }
  }

  lemma NothingRecorded(files: seq<FileRecipe>)
    ensures Paths(files[..0]) == {} && Recorded(map[], ChunksOf(files[..0]))
  {
  }

  lemma ChunksGrow(files: seq<FileRecipe>, i: nat)
    requires i < |files|
    ensures files[i] in files
    ensures ChunksOf(files[..i + 1]) == ChunksOf(files[..i]) + Elements(files[i].chunks)
    ensures ChunksOf(files[..i + 1]) <= ChunksOf(files)
  {
    var longer, shorter := files[..i + 1], files[..i];
    assert longer == shorter + [files[i]];
    assert forall f | f in shorter :: f in longer;
    assert forall f | f in longer :: (f in shorter || f == files[i]) && f in files;
  }

  /** The size, hash, key and duplicate checks of a manifest accept exactly the valid recipe lists. */
  method Validate(files: seq<FileRecipe>) returns (r: Result<(), ManifestError>)
    ensures r.Ok? <==> ValidFiles(files)
  {
    hide RawTotal, IsHash, ValidChunk, ChunksOf, Paths;
    NothingRecorded(files);
    var paths: set<Path> := {};
    var known: map<Hash, ChunkRef> := map[];
    for i := 0 to |files|
      invariant paths == Paths(files[..i]) && DistinctPaths(files[..i])
      invariant forall f | f in files[..i] :: ValidFile(f)
      invariant Recorded(known, ChunksOf(files[..i]))
    {
      var file := files[i];
      PathsGrow(files, i);
      PathsDiffer(files, i);
      ChunksGrow(files, i);
      if file.path in paths {
        return Err(DuplicatePath(file.path));
      }
      paths := paths + {file.path};
      if !IsHash(file.blake3) {
        return Err(BadHash(file.blake3));
      }
      var total := CheckedRawTotal(file.chunks);
      if total != Some(file.size) {
        return Err(FileSize(file.path));
      }
      var chunks := ValidateChunks(file, known, ChunksOf(files[..i]));
      if chunks.Err? {
        return Err(chunks.error);
      }
      known := chunks.value;
    }
    assert files[..|files|] == files;
    return Ok(());
  }

  /** Two files of a valid manifest at one path are one file. */
  lemma PathDecides(files: seq<FileRecipe>, f: FileRecipe, g: FileRecipe)
    requires DistinctPaths(files) && f in files && g in files && f.path == g.path
    ensures f == g
  {
  }
}

/** Rebuilding a file from verified chunks, and the verification of files on disk. */
module Reconstruction {
  import opened Common
  import opened Manifests

  type Tree = map<Path, Bytes>

  /** What a cache read hands out: the stored bytes, when they still have the digest they are filed under. */
  function ReadVerified(codec: Codec, cache: map<Hash, Bytes>, hash: Hash): Option<Bytes> {
    if hash in cache && codec.hash(cache[hash]) == hash then Some(cache[hash]) else None
  }

  function DecodeChunk(codec: Codec, cache: map<Hash, Bytes>, chunk: ChunkRef): Option<Bytes> {
    match ReadVerified(codec, cache, chunk.encodedHash)
    case None => None
    case Some(encoded) =>
      match codec.decode(encoded)
      case None => None
      case Some(raw) => if |raw| == chunk.rawSize && codec.hash(raw) == chunk.rawHash then Some(raw) else None
  }

  function Assemble(codec: Codec, cache: map<Hash, Bytes>, chunks: seq<ChunkRef>): Option<Bytes> {
    if chunks == [] then Some([]) else
      match DecodeChunk(codec, cache, chunks[0])
      case None => None
      case Some(raw) =>
        match Assemble(codec, cache, chunks[1..])
        case None => None
        case Some(rest) => Some(raw + rest)
  }

  predicate Verifies(codec: Codec, tree: Tree, path: Path, size: nat, hash: Hash) {
    path in tree && |tree[path]| == size && codec.hash(tree[path]) == hash
  }

  function Rebuild(codec: Codec, cache: map<Hash, Bytes>, file: FileRecipe): (r: Option<Bytes>)
    ensures r.Some? ==> |r.value| == file.size && codec.hash(r.value) == file.blake3
  {
    match Assemble(codec, cache, file.chunks)
    case None => None
    case Some(content) => if |content| == file.size && codec.hash(content) == file.blake3 then Some(content) else None
  }

  /** Each piece is what the cached frame of its chunk decodes to, and all sizes and digests are as recorded. */
  ghost predicate Verified(codec: Codec, cache: map<Hash, Bytes>, chunks: seq<ChunkRef>, pieces: seq<Bytes>) {
    && |pieces| == |chunks|
    && forall k | 0 <= k < |chunks| ::
         && chunks[k].encodedHash in cache
         && codec.hash(cache[chunks[k].encodedHash]) == chunks[k].encodedHash
         && codec.decode(cache[chunks[k].encodedHash]) == Some(pieces[k])
         && |pieces[k]| == chunks[k].rawSize && codec.hash(pieces[k]) == chunks[k].rawHash
  }

  lemma {:induction false} VerifiedPieces(codec: Codec, cache: map<Hash, Bytes>, chunks: seq<ChunkRef>)
    returns (pieces: seq<Bytes>)
    requires Assemble(codec, cache, chunks).Some?
    ensures Verified(codec, cache, chunks, pieces) && Assemble(codec, cache, chunks) == Some(Flatten(pieces))
  {
    if chunks == [] {
      pieces := [];
    } else {
      var rest := VerifiedPieces(codec, cache, chunks[1..]);
      pieces := [DecodeChunk(codec, cache, chunks[0]).value] + rest;
      assert pieces[1..] == rest;
      assert forall k | 0 < k < |chunks| :: chunks[k] == chunks[1..][k - 1] && pieces[k] == rest[k - 1];
    }
  }

  lemma {:induction false} AssemblesVerified(codec: Codec, cache: map<Hash, Bytes>, chunks: seq<ChunkRef>,
                                             pieces: seq<Bytes>)
    requires Verified(codec, cache, chunks, pieces)
    ensures Assemble(codec, cache, chunks) == Some(Flatten(pieces))
  {
    if chunks == [] {
    } else {
      assert forall k | 0 <= k < |chunks| - 1 :: chunks[1..][k] == chunks[k + 1] && pieces[1..][k] == pieces[k + 1];
      AssemblesVerified(codec, cache, chunks[1..], pieces[1..]);
      assert DecodeChunk(codec, cache, chunks[0]) == Some(pieces[0]);
    }
  }

  /** A file is rebuilt exactly from verified pieces, put together in the order of the recipe. */
  lemma RebuildIff(codec: Codec, cache: map<Hash, Bytes>, file: FileRecipe, content: Bytes)
    ensures Rebuild(codec, cache, file) == Some(content) <==>
              && |content| == file.size && codec.hash(content) == file.blake3
              && exists pieces :: Verified(codec, cache, file.chunks, pieces) && Flatten(pieces) == content
  {
    if Assemble(codec, cache, file.chunks).Some? {
      var pieces := VerifiedPieces(codec, cache, file.chunks);
    }
    forall pieces | Verified(codec, cache, file.chunks, pieces)
      ensures Assemble(codec, cache, file.chunks) == Some(Flatten(pieces)) {
      AssemblesVerified(codec, cache, file.chunks, pieces);
    }
  }

  /** The chunk loop of a reconstruction; None stands for the exception that abandons the file. */
  method ReconstructFile(codec: Codec, cache: map<Hash, Bytes>, file: FileRecipe) returns (r: Option<Bytes>)
    ensures r == Rebuild(codec, cache, file)
  {
    var output: Bytes := [];
    assert file.chunks[0..] == file.chunks;
    assert forall rest: Bytes :: output + rest == rest;
    for i := 0 to |file.chunks|
      invariant Assemble(codec, cache, file.chunks) ==
                match Assemble(codec, cache, file.chunks[i..]) case None => None case Some(rest) => Some(output + rest)
    {
      var rest := file.chunks[i..];
      assert rest[1..] == file.chunks[i + 1..] && rest[0] == file.chunks[i];
      var raw := DecodeChunk(codec, cache, file.chunks[i]);
      if raw.None? {
        return None;
      }
      if Assemble(codec, cache, file.chunks[i + 1..]).Some? {
        assert output + (raw.value + Assemble(codec, cache, file.chunks[i + 1..]).value)
            == (output + raw.value) + Assemble(codec, cache, file.chunks[i + 1..]).value;
      }
      output := output + raw.value;
    }
    assert output + [] == output;
    if |output| != file.size || codec.hash(output) != file.blake3 {
      return None;
    }
    return Some(output);
  }
}
