/** Packaging a directory: chunk, encode, store each distinct chunk once, and write a recipe for each file. */
module Packager {
  import opened Common
  import opened Manifests
  import opened Reconstruction
  import opened Sorting
  import opened Transactions
  import Ordinal

  /** A walked file: its portable path, the length its metadata reports, and the bytes read from it. */
  datatype SourceFile = SourceFile(path: Path, reportedLength: nat, content: Bytes)

  datatype Counts = Counts(rawBytes: nat, encodedBytes: nat, chunks: nat, unique: nat, reused: nat)

  datatype PackageError = NoFiles | InvalidManifest(error: ManifestError)

  datatype Package = Package(recipes: seq<FileRecipe>, counts: Counts, warnings: seq<Path>)

  /** A content-defined chunker may cut anywhere, but it loses nothing and makes no empty piece. */
  ghost predicate Splits(chunker: Bytes -> seq<Bytes>) {
    forall content: Bytes :: Flatten(chunker(content)) == content && [] !in chunker(content)
  }

  function RefOf(codec: Codec, raw: Bytes): ChunkRef {
    var encoded := codec.encode(raw);
    ChunkRef(codec.hash(raw), |raw|, codec.hash(encoded), |encoded|, ObjectKey(codec.hash(encoded)))
  }

  function RefsOf(codec: Codec, pieces: seq<Bytes>): seq<ChunkRef> {
    seq(|pieces|, k requires 0 <= k < |pieces| => RefOf(codec, pieces[k]))
  }

  function RecipeOf(codec: Codec, path: Path, pieces: seq<Bytes>): FileRecipe {
    FileRecipe(path, |Flatten(pieces)|, codec.hash(Flatten(pieces)), RefsOf(codec, pieces))
  }

  function RecipesOf(codec: Codec, chunker: Bytes -> seq<Bytes>, files: seq<SourceFile>): seq<FileRecipe> {
    seq(|files|, k requires 0 <= k < |files| => RecipeOf(codec, files[k].path, chunker(files[k].content)))
  }

  predicate PathOrder(a: FileRecipe, b: FileRecipe) {
    Ordinal.Le(a.path, b.path)
  }

  function TotalLength(pieces: seq<Bytes>): nat {
    |Flatten(pieces)|
  }

  function EncodedLength(codec: Codec, pieces: seq<Bytes>): nat {
    if pieces == [] then 0 else |codec.encode(pieces[0])| + EncodedLength(codec, pieces[1..])
  }

  /** Each piece seen so far is stored under the digest of its frame, and nothing else is stored. */
  ghost predicate Stores(codec: Codec, objects: map<Hash, Bytes>, seen: seq<Bytes>) {
    && objects.Keys == FrameHashes(codec, seen)
    && forall h | h in objects :: codec.hash(objects[h]) == h && FrameOfSome(codec, seen, objects[h])
  }

  function FrameHashes(codec: Codec, pieces: seq<Bytes>): set<Hash> {
    set p | p in pieces :: codec.hash(codec.encode(p))
  }

  ghost predicate FrameOfSome(codec: Codec, pieces: seq<Bytes>, frame: Bytes) {
    exists p | p in pieces :: frame == codec.encode(p)
  }

  /** The counters agree with the pieces seen and with the objects stored. */
  ghost predicate Accounts(codec: Codec, objects: map<Hash, Bytes>, seen: seq<Bytes>, counts: Counts) {
    && Stores(codec, objects, seen)
    && counts.rawBytes == TotalLength(seen) && counts.encodedBytes == EncodedLength(codec, seen)
    && counts.chunks == |seen| && counts.unique == |objects| && counts.unique + counts.reused == counts.chunks
  }

  lemma {:induction false} FlattenSplit(left: seq<Bytes>, right: seq<Bytes>)
    ensures Flatten(left + right) == Flatten(left) + Flatten(right)
  {
    if left == [] {
      assert left + right == right;
    } else {
      var rest := Flatten(left[1..]);
      FlattenSplit(left[1..], right);
      assert (left + right)[0] == left[0] && (left + right)[1..] == left[1..] + right;
      assert left[0] + (rest + Flatten(right)) == left[0] + rest + Flatten(right);
    }
  }

  lemma {:induction false} EncodedSplit(codec: Codec, left: seq<Bytes>, right: seq<Bytes>)
    ensures EncodedLength(codec, left + right) == EncodedLength(codec, left) + EncodedLength(codec, right)
  {
    if left == [] {
      assert left + right == right;
    } else {
      EncodedSplit(codec, left[1..], right);
      assert (left + right)[1..] == left[1..] + right;
    }
  }

  lemma FramesGrow(codec: Codec, seen: seq<Bytes>, raw: Bytes)
    ensures FrameHashes(codec, seen + [raw]) == FrameHashes(codec, seen) + {codec.hash(codec.encode(raw))}
    ensures forall frame | FrameOfSome(codec, seen, frame) :: FrameOfSome(codec, seen + [raw], frame)
    ensures FrameOfSome(codec, seen + [raw], codec.encode(raw))
  {
    assert forall p :: p in seen + [raw] <==> p in seen || p == raw;
    forall frame | FrameOfSome(codec, seen, frame) ensures FrameOfSome(codec, seen + [raw], frame) {
      var p :| p in seen && frame == codec.encode(p);
      assert p in seen + [raw];
    }
  }

  lemma StoresOneMore(codec: Codec, objects: map<Hash, Bytes>, seen: seq<Bytes>, raw: Bytes)
    requires Stores(codec, objects, seen)
    ensures
      var encoded := codec.encode(raw);
      var hash := codec.hash(encoded);
      if hash in objects then Stores(codec, objects, seen + [raw])
      else Stores(codec, objects[hash := encoded], seen + [raw]) && |objects[hash := encoded]| == |objects| + 1
  {
    hide FrameHashes, FrameOfSome;
    FramesGrow(codec, seen, raw);
  }

  /** The output directory of one packaging run. */
  class Output {
    const codec: Codec
    const chunker: Bytes -> seq<Bytes>

    var objects: map<Hash, Bytes>

    constructor (codec: Codec, chunker: Bytes -> seq<Bytes>)
      ensures this.codec == codec && this.chunker == chunker && objects == map[]
    {
      this.codec, this.chunker, objects := codec, chunker, map[];
    }

    /** Encodes one piece and stores it, unless its frame is already there. */
    method PackageChunk(raw: Bytes, counts: Counts, ghost seen: seq<Bytes>) returns (ref: ChunkRef, counts': Counts)
      requires Accounts(codec, objects, seen, counts)
      modifies this
      ensures ref == RefOf(codec, raw)
      ensures Accounts(codec, objects, seen + [raw], counts')
    {
      var encoded := codec.encode(raw);
      var encodedHash := codec.hash(encoded);
      StoresOneMore(codec, objects, seen, raw);
      FlattenSplit(seen, [raw]);
      EncodedSplit(codec, seen, [raw]);
      assert Flatten([raw]) == raw;
      counts' := counts;
      if encodedHash in objects {
        counts' := counts'.(reused := counts.reused + 1);
      } else {
        objects := objects[encodedHash := encoded];
        counts' := counts'.(unique := counts.unique + 1);
      }
      counts' := counts'.(rawBytes := counts.rawBytes + |raw|, encodedBytes := counts.encodedBytes + |encoded|,
        chunks := counts.chunks + 1);
      ref := ChunkRef(codec.hash(raw), |raw|, encodedHash, |encoded|, ObjectKey(encodedHash));
    }

    /** The chunk loop of one file, with its running size and digest. */
    method PackageFile(file: SourceFile, counts: Counts, ghost seen: seq<Bytes>)
      returns (recipe: FileRecipe, counts': Counts)
      requires Accounts(codec, objects, seen, counts)
      modifies this
      ensures recipe == RecipeOf(codec, file.path, chunker(file.content))
      ensures Accounts(codec, objects, seen + chunker(file.content), counts')
    {
      hide Accounts, RefOf;
      var pieces := chunker(file.content);
      var hashed: Bytes, size, refs := [], 0, [];
      counts' := counts;
      assert seen + pieces[..0] == seen;
      for k := 0 to |pieces|
        invariant Accounts(codec, objects, seen + pieces[..k], counts')
        invariant hashed == Flatten(pieces[..k]) && size == |hashed| && refs == RefsOf(codec, pieces[..k])
      {
        var ref;
        ref, counts' := PackageChunk(pieces[k], counts', seen + pieces[..k]);
        assert pieces[..k + 1] == pieces[..k] + [pieces[k]];
        assert (seen + pieces[..k]) + [pieces[k]] == seen + pieces[..k + 1];
        FlattenSplit(pieces[..k], [pieces[k]]);
        assert Flatten([pieces[k]]) == pieces[k];
        hashed, size, refs := hashed + pieces[k], size + |pieces[k]|, refs + [ref];
      }
      assert pieces[..|pieces|] == pieces;
      recipe := FileRecipe(file.path, size, codec.hash(hashed), refs);
    }

    /** All files in the order they were walked: recipes, counters and warnings about files that changed meanwhile. */
    method PackageFiles(files: seq<SourceFile>) returns (recipes: seq<FileRecipe>, counts: Counts, warnings: seq<Path>)
      requires objects == map[]
      modifies this
      ensures recipes == RecipesOf(codec, chunker, files)
      ensures Accounts(codec, objects, PiecesOf(chunker, files), counts)
      ensures Splits(chunker) ==>
                forall w :: w in warnings <==> exists f | f in files :: f.path == w && |f.content| != f.reportedLength
    {
      hide Splits;
      recipes, counts, warnings := [], Counts(0, 0, 0, 0, 0), [];
      for i := 0 to |files|
        invariant recipes == RecipesOf(codec, chunker, files[..i])
        invariant Accounts(codec, objects, PiecesOf(chunker, files[..i]), counts)
        invariant forall w :: w in warnings <==>
                    exists f | f in files[..i] :: f.path == w && |Flatten(chunker(f.content))| != f.reportedLength
      {
        var file := files[i];
        var recipe;
        PiecesGrow(chunker, files, i);
        recipe, counts := PackageFile(file, counts, PiecesOf(chunker, files[..i]));
        if recipe.size != file.reportedLength {
          warnings := warnings + [file.path];
        }
        recipes := recipes + [recipe];
        assert forall f :: f in files[..i + 1] <==> f in files[..i] || f == file;
      }
      assert files[..|files|] == files;
      SizesAreContents(chunker);
    }

    /**
     * Packages a walked directory into this output, which a run empties first. It succeeds exactly when there is
     * a file and the sorted recipes form a valid manifest.
     */
    method PackageDirectory(files: seq<SourceFile>) returns (r: Result<Package, PackageError>)
      modifies this
      ensures
        var recipes := Sort(RecipesOf(codec, chunker, files), PathOrder);
        && (r.Ok? <==> files != [] && ValidFiles(recipes))
        && (r == Err(NoFiles) <==> files == [])
        && (r.Ok? ==> r.value.recipes == recipes && Accounts(codec, objects, PiecesOf(chunker, files), r.value.counts))
        && (r.Ok? && Splits(chunker) ==>
              forall w :: w in r.value.warnings <==>
                  exists f | f in files :: f.path == w && |f.content| != f.reportedLength)
        && (r.Ok? && Sound(codec, PiecesOf(chunker, files)) ==>
              && (forall c | c in ChunksOf(r.value.recipes) ::
                    c.encodedHash in objects && |objects[c.encodedHash]| == c.encodedSize)
              && AddUp(recipes, objects, r.value.counts))
    {
      hide Accounts, ValidFiles, Splits, Sound, ChunksOf, AddUp, PiecesOf;
      objects := map[];
      var recipes, counts, warnings := PackageFiles(files);
      SortedLength(recipes);
      recipes := Sort(recipes, PathOrder);
      if recipes == [] {
        return Err(NoFiles);
      }
      var valid := Validate(recipes);
      if valid.Err? {
        return Err(InvalidManifest(valid.error));
      }
      if Sound(codec, PiecesOf(chunker, files)) {
        CountsMatchRecipes(codec, chunker, files, objects, counts);
        AllServed(codec, chunker, files, objects, counts);
      }
      return Ok(Package(recipes, counts, warnings));
    }
  }

  lemma SizesAreContents(chunker: Bytes -> seq<Bytes>)
    ensures Splits(chunker) ==> forall content: Bytes :: Flatten(chunker(content)) == content
  {
  }

  function PiecesOf(chunker: Bytes -> seq<Bytes>, files: seq<SourceFile>): seq<Bytes> {
    if files == [] then [] else PiecesOf(chunker, files[..|files| - 1]) + chunker(files[|files| - 1].content)
  }

  lemma PiecesGrow(chunker: Bytes -> seq<Bytes>, files: seq<SourceFile>, i: nat)
    requires i < |files|
    ensures PiecesOf(chunker, files[..i + 1]) == PiecesOf(chunker, files[..i]) + chunker(files[i].content)
  {
    assert files[..i + 1][..i] == files[..i];
  }

  lemma {:induction false} PiecesInclude(chunker: Bytes -> seq<Bytes>, files: seq<SourceFile>, f: SourceFile)
    requires f in files
    ensures forall p | p in chunker(f.content) :: p in PiecesOf(chunker, files)
  {
    if f != files[|files| - 1] {
      assert files == files[..|files| - 1] + [files[|files| - 1]];
      PiecesInclude(chunker, files[..|files| - 1], f);
    }
  }

  lemma PathOrderIsTotal()
    ensures TotalPreorder(PathOrder)
  {
    forall a: FileRecipe, b: FileRecipe ensures PathOrder(a, b) || PathOrder(b, a) {
      Ordinal.Antisymmetry(a.path, b.path);
    }
    forall a: FileRecipe, b: FileRecipe, c: FileRecipe | PathOrder(a, b) && PathOrder(b, c) ensures PathOrder(a, c) {
      Ordinal.Transitivity(a.path, b.path, c.path);
    }
  }

  lemma SortedLength(recipes: seq<FileRecipe>)
    ensures |Sort(recipes, PathOrder)| == |recipes|
  {
    PathOrderIsTotal();
    SortCorrect(recipes, PathOrder);
  }

  // ---- What a package is for.

  /** What the digests and the codec must offer: no clash among the frames of this build, and frames that decode. */
  ghost predicate Sound(codec: Codec, pieces: seq<Bytes>) {
    && RoundTrips(codec)
    && CollisionFree(codec.hash, set p | p in pieces :: codec.encode(p))
  }

  lemma SameFrameSamePiece(codec: Codec, pieces: seq<Bytes>, p: Bytes, q: Bytes)
    requires Sound(codec, pieces) && p in pieces && q in pieces
    requires codec.hash(codec.encode(p)) == codec.hash(codec.encode(q))
    ensures p == q
  {
    var frames := set x | x in pieces :: codec.encode(x);
    assert codec.encode(p) in frames && codec.encode(q) in frames;
    assert codec.decode(codec.encode(p)) == Some(p) && codec.decode(codec.encode(q)) == Some(q);
  }

  /** The chunk objects rebuild any file cut into pieces that were stored. */
  lemma {:induction false} AssemblesPieces(codec: Codec, objects: map<Hash, Bytes>, all: seq<Bytes>, pieces: seq<Bytes>)
    requires Sound(codec, all) && Stores(codec, objects, all) && forall p | p in pieces :: p in all
    ensures Assemble(codec, objects, RefsOf(codec, pieces)) == Some(Flatten(pieces))
  {
    if pieces == [] {
    } else {
      var raw, refs := pieces[0], RefsOf(codec, pieces);
      AssemblesPieces(codec, objects, all, pieces[1..]);
      assert refs[1..] == RefsOf(codec, pieces[1..]) && refs[0] == RefOf(codec, raw);
      var hash := codec.hash(codec.encode(raw));
      assert raw in all && hash in objects;
      assert FrameOfSome(codec, all, objects[hash]);
      var q :| q in all && objects[hash] == codec.encode(q);
      SameFrameSamePiece(codec, all, raw, q);
      assert codec.decode(codec.encode(raw)) == Some(raw);
      assert DecodeChunk(codec, objects, refs[0]) == Some(raw);
    }
  }

  /** Every packaged file is rebuilt from its recipe and the stored objects, byte for byte. */
  lemma RebuildsOriginal(codec: Codec, chunker: Bytes -> seq<Bytes>, files: seq<SourceFile>, objects: map<Hash, Bytes>,
                         f: SourceFile)
    requires Splits(chunker) && Sound(codec, PiecesOf(chunker, files))
    requires Stores(codec, objects, PiecesOf(chunker, files))
    requires f in files
    ensures Rebuild(codec, objects, RecipeOf(codec, f.path, chunker(f.content))) == Some(f.content)
  {
    PiecesInclude(chunker, files, f);
    AssemblesPieces(codec, objects, PiecesOf(chunker, files), chunker(f.content));
    assert Flatten(chunker(f.content)) == f.content;
  }

  lemma {:induction false} RawTotalOfRefs(codec: Codec, pieces: seq<Bytes>)
    ensures RawTotal(RefsOf(codec, pieces)) == |Flatten(pieces)|
  {
    if pieces == [] {
    } else {
      RawTotalOfRefs(codec, pieces[1..]);
      assert RefsOf(codec, pieces)[1..] == RefsOf(codec, pieces[1..]);
    }
  }

  lemma RecipeIsValid(codec: Codec, chunker: Bytes -> seq<Bytes>, f: SourceFile)
    requires Splits(chunker) && RoundTrips(codec) && (forall x :: IsHash(codec.hash(x))) && |f.content| < U64_LIMIT
    ensures ValidFile(RecipeOf(codec, f.path, chunker(f.content)))
  {
    var pieces := chunker(f.content);
    var recipe := RecipeOf(codec, f.path, pieces);
    RawTotalOfRefs(codec, pieces);
    assert Flatten(pieces) == f.content && [] !in pieces;
    forall c | c in recipe.chunks ensures ValidChunk(c) {
      var k :| 0 <= k < |pieces| && c == RefOf(codec, pieces[k]);
      assert pieces[k] in pieces;
      assert |codec.encode(pieces[k])| > 0;
    }
  }

  lemma RefsComeFromPieces(codec: Codec, chunker: Bytes -> seq<Bytes>, files: seq<SourceFile>, recipes: seq<FileRecipe>,
                           c: ChunkRef)
    requires c in ChunksOf(recipes) && forall r | r in recipes :: r in RecipesOf(codec, chunker, files)
    ensures exists p | p in PiecesOf(chunker, files) :: c == RefOf(codec, p)
  {
    var r :| r in recipes && c in r.chunks;
    var i :| 0 <= i < |files| && r == RecipeOf(codec, files[i].path, chunker(files[i].content));
    var pieces := chunker(files[i].content);
    var k :| 0 <= k < |pieces| && c == RefOf(codec, pieces[k]);
    PiecesInclude(chunker, files, files[i]);
  }

  /** The recipes of files at distinct paths always pass validation, so packaging them succeeds. */
  lemma RecipesAreValid(codec: Codec, chunker: Bytes -> seq<Bytes>, files: seq<SourceFile>)
    requires Splits(chunker) && Sound(codec, PiecesOf(chunker, files)) && forall x :: IsHash(codec.hash(x))
    requires forall i, j | 0 <= i < j < |files| :: files[i].path != files[j].path
    requires forall f | f in files :: |f.content| < U64_LIMIT
    ensures ValidFiles(Sort(RecipesOf(codec, chunker, files), PathOrder))
  {
    hide RecipeOf, ValidFile, Splits, Sound, Agree, ChunksOf;
    var recipes := RecipesOf(codec, chunker, files);
    PathOrderIsTotal();
    forall r ensures r in Sort(recipes, PathOrder) <==> r in recipes {
      SortMembers(recipes, PathOrder, r);
    }
    RecipePaths(codec, chunker, files);
    SortedPathsDiffer(recipes);
    EachRecipeIsValid(codec, chunker, files);
    ChunksAgree(codec, chunker, files, Sort(recipes, PathOrder));
  }

  lemma EachRecipeIsValid(codec: Codec, chunker: Bytes -> seq<Bytes>, files: seq<SourceFile>)
    requires Splits(chunker) && Sound(codec, PiecesOf(chunker, files)) && forall x :: IsHash(codec.hash(x))
    requires forall f | f in files :: |f.content| < U64_LIMIT
    ensures forall r | r in RecipesOf(codec, chunker, files) :: ValidFile(r)
  {
    hide RecipeOf, ValidFile, Splits;
    forall r | r in RecipesOf(codec, chunker, files) ensures ValidFile(r) {
      var i :| 0 <= i < |files| && r == RecipesOf(codec, chunker, files)[i];
      assert files[i] in files;
      RecipeIsValid(codec, chunker, files[i]);
    }
  }

  lemma ChunksAgree(codec: Codec, chunker: Bytes -> seq<Bytes>, files: seq<SourceFile>, recipes: seq<FileRecipe>)
    requires Sound(codec, PiecesOf(chunker, files)) && forall r | r in recipes :: r in RecipesOf(codec, chunker, files)
    ensures Agree(ChunksOf(recipes))
  {
    hide RecipesOf, Sound, ChunksOf;
    forall c, d | c in ChunksOf(recipes) && d in ChunksOf(recipes) && c.encodedHash == d.encodedHash ensures c == d {
      RefsComeFromPieces(codec, chunker, files, recipes, c);
      RefsComeFromPieces(codec, chunker, files, recipes, d);
      var p :| p in PiecesOf(chunker, files) && c == RefOf(codec, p);
      var q :| q in PiecesOf(chunker, files) && d == RefOf(codec, q);
      SameFrameSamePiece(codec, PiecesOf(chunker, files), p, q);
    }
  }

  lemma RecipePaths(codec: Codec, chunker: Bytes -> seq<Bytes>, files: seq<SourceFile>)
    ensures forall i | 0 <= i < |files| :: RecipesOf(codec, chunker, files)[i].path == files[i].path
  {
    forall i | 0 <= i < |files| ensures RecipesOf(codec, chunker, files)[i].path == files[i].path {
      assert RecipesOf(codec, chunker, files)[i] == RecipeOf(codec, files[i].path, chunker(files[i].content));
    }
  }

  lemma SortedPathsDiffer(recipes: seq<FileRecipe>)
    requires DistinctPaths(recipes)
    ensures DistinctPaths(Sort(recipes, PathOrder))
  {
    var sorted := Sort(recipes, PathOrder);
    PathOrderIsTotal();
    SortDistinct(recipes, PathOrder);
    forall i, j | 0 <= i < j < |sorted| ensures sorted[i].path != sorted[j].path {
      SortMembers(recipes, PathOrder, sorted[i]);
      SortMembers(recipes, PathOrder, sorted[j]);
    }
  }

  /** Installing a packaged build from a cache that holds its objects puts every original file in place. */
  lemma PackagedBuildInstalls(codec: Codec, chunker: Bytes -> seq<Bytes>, files: seq<SourceFile>,
                              objects: map<Hash, Bytes>,
                              before: Tree, after: Tree)
    requires Splits(chunker) && Sound(codec, PiecesOf(chunker, files))
    requires Stores(codec, objects, PiecesOf(chunker, files))
    requires Installs(codec, objects, Sort(RecipesOf(codec, chunker, files), PathOrder), before, after)
    ensures forall f | f in files :: f.path in after && after[f.path] == f.content
  {
    hide RecipeOf, Splits, Sound, Stores;
    var recipes := RecipesOf(codec, chunker, files);
    PathOrderIsTotal();
    RecipePaths(codec, chunker, files);
    forall f | f in files ensures f.path in after && after[f.path] == f.content {
      var i :| 0 <= i < |files| && files[i] == f;
      SortMembers(recipes, PathOrder, recipes[i]);
      assert recipes[i] in recipes;
      RebuildsOriginal(codec, chunker, files, objects, f);
    }
  }

  // ---- The recipes against the objects.

  /** A reference is served by the objects: the one it names has the size it records, and decodes to what it records. */
  ghost predicate Served(codec: Codec, objects: map<Hash, Bytes>, c: ChunkRef) {
    && c.encodedHash in objects
    && |objects[c.encodedHash]| == c.encodedSize && codec.hash(objects[c.encodedHash]) == c.encodedHash
    && codec.decode(objects[c.encodedHash]).Some?
    && |codec.decode(objects[c.encodedHash]).value| == c.rawSize
    && codec.hash(codec.decode(objects[c.encodedHash]).value) == c.rawHash
  }

  lemma RefIsServed(codec: Codec, all: seq<Bytes>, objects: map<Hash, Bytes>, raw: Bytes)
    requires Sound(codec, all) && Stores(codec, objects, all) && raw in all
    ensures Served(codec, objects, RefOf(codec, raw))
    ensures objects[codec.hash(codec.encode(raw))] == codec.encode(raw)
  {
    var hash := codec.hash(codec.encode(raw));
    assert hash in objects && FrameOfSome(codec, all, objects[hash]);
    var q :| q in all && objects[hash] == codec.encode(q);
    SameFrameSamePiece(codec, all, raw, q);
    assert codec.decode(codec.encode(raw)) == Some(raw);
  }

  /** Every reference of the finished recipes is served, under its own key. */
  lemma RecipesMatchObjects(codec: Codec, chunker: Bytes -> seq<Bytes>, files: seq<SourceFile>,
                            objects: map<Hash, Bytes>, c: ChunkRef)
    requires Sound(codec, PiecesOf(chunker, files)) && Stores(codec, objects, PiecesOf(chunker, files))
    requires c in ChunksOf(Sort(RecipesOf(codec, chunker, files), PathOrder))
    ensures c.encodedHash in objects && |objects[c.encodedHash]| == c.encodedSize
    ensures Served(codec, objects, c) && c.objectKey == "chunks/encoded/" + c.encodedHash + ".bin"
  {
    hide Sound, Stores, RecipesOf, ChunksOf, Served;
    var recipes := Sort(RecipesOf(codec, chunker, files), PathOrder);
    SortedMembers(RecipesOf(codec, chunker, files));
    RefsComeFromPieces(codec, chunker, files, recipes, c);
    var p :| p in PiecesOf(chunker, files) && c == RefOf(codec, p);
    RefIsServed(codec, PiecesOf(chunker, files), objects, p);
  }

  lemma AllServed(codec: Codec, chunker: Bytes -> seq<Bytes>, files: seq<SourceFile>, objects: map<Hash, Bytes>,
                  counts: Counts)
    requires Sound(codec, PiecesOf(chunker, files)) && Accounts(codec, objects, PiecesOf(chunker, files), counts)
    ensures forall c | c in ChunksOf(Sort(RecipesOf(codec, chunker, files), PathOrder)) ::
              c.encodedHash in objects && |objects[c.encodedHash]| == c.encodedSize
  {
    hide Sound, Stores, RecipesOf, ChunksOf, Served;
    forall c | c in ChunksOf(Sort(RecipesOf(codec, chunker, files), PathOrder))
      ensures c.encodedHash in objects && |objects[c.encodedHash]| == c.encodedSize {
      RecipesMatchObjects(codec, chunker, files, objects, c);
    }
  }

  lemma SortedMembers(recipes: seq<FileRecipe>)
    ensures forall r :: r in Sort(recipes, PathOrder) <==> r in recipes
  {
    PathOrderIsTotal();
    forall r ensures r in Sort(recipes, PathOrder) <==> r in recipes {
      SortMembers(recipes, PathOrder, r);
    }
  }

  /** Nothing is stored that no recipe names. */
  lemma ObjectsAreNamed(codec: Codec, chunker: Bytes -> seq<Bytes>, files: seq<SourceFile>, objects: map<Hash, Bytes>,
                        hash: Hash)
    requires Stores(codec, objects, PiecesOf(chunker, files)) && hash in objects
    ensures exists c | c in ChunksOf(Sort(RecipesOf(codec, chunker, files), PathOrder)) :: c.encodedHash == hash
  {
    var recipes := RecipesOf(codec, chunker, files);
    SortedMembers(recipes);
    var p :| p in PiecesOf(chunker, files) && codec.hash(codec.encode(p)) == hash;
    var i := PieceOfFile(chunker, files, p);
    var pieces := chunker(files[i].content);
    var k :| 0 <= k < |pieces| && pieces[k] == p;
    var recipe := RecipeOf(codec, files[i].path, pieces);
    assert recipes[i] == recipe && recipe in recipes;
    assert recipe.chunks[k] == RefOf(codec, p) && recipe.chunks[k] in recipe.chunks;
    assert recipe.chunks[k] in ChunksOf(Sort(recipes, PathOrder));
  }

  lemma {:induction false} PieceOfFile(chunker: Bytes -> seq<Bytes>, files: seq<SourceFile>, p: Bytes) returns (i: nat)
    requires p in PiecesOf(chunker, files)
    ensures i < |files| && p in chunker(files[i].content)
  {
    i := |files| - 1;
    if p !in chunker(files[i].content) {
      i := PieceOfFile(chunker, files[..i], p);
    }
  }

  /** The lengths of the objects that a list of references names, repetitions included. */
  function StoredTotal(objects: map<Hash, Bytes>, chunks: seq<ChunkRef>): nat {
    if chunks == [] then 0 else
      (if chunks[0].encodedHash in objects then |objects[chunks[0].encodedHash]| else 0)
      + StoredTotal(objects, chunks[1..])
  }

  lemma {:induction false} StoredTotalOfRefs(codec: Codec, all: seq<Bytes>, objects: map<Hash, Bytes>,
                                            pieces: seq<Bytes>)
    requires Sound(codec, all) && Stores(codec, objects, all) && forall p | p in pieces :: p in all
    ensures StoredTotal(objects, RefsOf(codec, pieces)) == EncodedLength(codec, pieces)
  {
    hide Sound, Stores;
    if pieces == [] {
    } else {
      RefIsServed(codec, all, objects, pieces[0]);
      StoredTotalOfRefs(codec, all, objects, pieces[1..]);
      assert RefsOf(codec, pieces)[1..] == RefsOf(codec, pieces[1..]);
      assert RefsOf(codec, pieces)[0] == RefOf(codec, pieces[0]);
    }
  }

  /**
   * What the counters of a package add up: the references of all recipes, the sizes of all files, and for every
   * reference, repeated ones included, the length of the object it names.
   */
  ghost predicate AddUp(recipes: seq<FileRecipe>, objects: map<Hash, Bytes>, counts: Counts) {
    && counts.chunks == TotalOf(recipes, (r: FileRecipe) => |r.chunks|)
    && counts.rawBytes == TotalOf(recipes, (r: FileRecipe) => r.size)
    && counts.encodedBytes == TotalOf(recipes, (r: FileRecipe) => StoredTotal(objects, r.chunks))
    && counts.unique == |objects| && counts.reused == counts.chunks - counts.unique
  }

  lemma CountsMatchRecipes(codec: Codec, chunker: Bytes -> seq<Bytes>, files: seq<SourceFile>,
                           objects: map<Hash, Bytes>, counts: Counts)
    requires Sound(codec, PiecesOf(chunker, files)) && Accounts(codec, objects, PiecesOf(chunker, files), counts)
    ensures AddUp(Sort(RecipesOf(codec, chunker, files), PathOrder), objects, counts)
  {
    var recipes := RecipesOf(codec, chunker, files);
    SortKeepsTotal(recipes, PathOrder, (r: FileRecipe) => |r.chunks|);
    SortKeepsTotal(recipes, PathOrder, (r: FileRecipe) => r.size);
    SortKeepsTotal(recipes, PathOrder, (r: FileRecipe) => StoredTotal(objects, r.chunks));
    TotalsOfFiles(codec, chunker, files, PiecesOf(chunker, files), objects);
  }

  lemma {:induction false} TotalsOfFiles(codec: Codec, chunker: Bytes -> seq<Bytes>, files: seq<SourceFile>,
                                         all: seq<Bytes>, objects: map<Hash, Bytes>)
    requires Sound(codec, all) && Stores(codec, objects, all) && forall p | p in PiecesOf(chunker, files) :: p in all
    ensures
      var recipes, pieces := RecipesOf(codec, chunker, files), PiecesOf(chunker, files);
      && TotalOf(recipes, (r: FileRecipe) => |r.chunks|) == |pieces|
      && TotalOf(recipes, (r: FileRecipe) => r.size) == TotalLength(pieces)
      && TotalOf(recipes, (r: FileRecipe) => StoredTotal(objects, r.chunks)) == EncodedLength(codec, pieces)
  {
    hide Sound, Stores;
    if files == [] {
    } else {
      var n := |files| - 1;
      var earlier, last := RecipesOf(codec, chunker, files[..n]), chunker(files[n].content);
      var recipe := RecipeOf(codec, files[n].path, last);
      assert RecipesOf(codec, chunker, files) == earlier + [recipe];
      TotalsOfFiles(codec, chunker, files[..n], all, objects);
      FlattenSplit(PiecesOf(chunker, files[..n]), last);
      EncodedSplit(codec, PiecesOf(chunker, files[..n]), last);
      StoredTotalOfRefs(codec, all, objects, last);
      TotalSplit(earlier, [recipe], (r: FileRecipe) => |r.chunks|);
      TotalSplit(earlier, [recipe], (r: FileRecipe) => r.size);
      TotalSplit(earlier, [recipe], (r: FileRecipe) => StoredTotal(objects, r.chunks));
      assert [recipe][1..] == [];
    }
  }

  /** The recipes of a package come by ascending path. */
  lemma RecipesAscend(recipes: seq<FileRecipe>, i: nat, j: nat)
    requires DistinctPaths(Sort(recipes, PathOrder)) && i < j < |Sort(recipes, PathOrder)|
    ensures Ordinal.Below(Sort(recipes, PathOrder)[i].path, Sort(recipes, PathOrder)[j].path)
  {
    var sorted := Sort(recipes, PathOrder);
    PathOrderIsTotal();
    SortCorrect(recipes, PathOrder);
    assert PathOrder(sorted[i], sorted[j]);
    Ordinal.CompareMeans(sorted[i].path, sorted[j].path);
  }
}
