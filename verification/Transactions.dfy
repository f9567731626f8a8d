/** What rolling a file transaction back means, on trees of files. */
module Transactions {
  import opened Common
  import opened Manifests
  import opened MapSums
  import opened Reconstruction

  /** Delete what the journal lists, then move every backup home. */
  function Restore(root: Tree, backup: Tree, committed: set<Path>): Tree {
    (root - committed) + backup
  }

  /** Taking a file away into the backup does not change where a rollback ends. */
  lemma TakingIsUndone(root: Tree, backup: Tree, committed: set<Path>, path: Path)
    requires path !in committed && path !in backup
    ensures Restore(root - {path}, if path in root then backup[path := root[path]] else backup, committed)
         == Restore(root, backup, committed)
  {
  }

  /** Placing a new file where none is: undone once journaled, and before that only if an old file is backed up. */
  lemma PlacingIsUndone(root: Tree, backup: Tree, committed: set<Path>, path: Path, bytes: Bytes)
    requires path !in committed && path !in root
    ensures Restore(root[path := bytes], backup, committed + {path}) == Restore(root, backup, committed)
    ensures path in backup ==> Restore(root[path := bytes], backup, committed) == Restore(root, backup, committed)
    ensures path !in backup ==>
              && path !in Restore(root, backup, committed)
              && Restore(root[path := bytes], backup, committed) == Restore(root, backup, committed)[path := bytes]
  {
    assert root[path := bytes] - (committed + {path}) == root - committed;
  }

  /** Deleting journaled files a first time does not change where the rollback ends. */
  lemma DeletingIsRepeatable(root: Tree, backup: Tree, committed: set<Path>, deleted: set<Path>)
    requires deleted <= committed
    ensures Restore(root - deleted, backup, committed) == Restore(root, backup, committed)
  {
    assert (root - deleted) - committed == root - committed;
  }

  /** The part of a tree at the given paths. */
  function Only(tree: Tree, paths: set<Path>): Tree {
    map p | p in tree && p in paths :: tree[p]
  }

  /** The tree once the backups in `moved` were brought home over what was left of it. */
  function Homeward(emptied: Tree, backups: Tree, moved: set<Path>): Tree {
    emptied + Only(backups, moved)
  }

  /** The backups not brought home yet. */
  function Waiting(backups: Tree, moved: set<Path>): Tree {
    backups - moved
  }

  lemma NothingMoved(emptied: Tree, backups: Tree)
    ensures emptied == Homeward(emptied, backups, {}) && backups == Waiting(backups, {})
  {
  }

  lemma OneMoreHome(emptied: Tree, backups: Tree, moved: set<Path>, path: Path)
    requires path in Waiting(backups, moved)
    ensures path in backups && path !in moved
    ensures Homeward(emptied, backups, moved + {path}) ==
              Homeward(emptied, backups, moved)[path := Waiting(backups, moved)[path]]
    ensures Waiting(backups, moved + {path}) == Waiting(backups, moved) - {path}
  {
    assert Only(backups, moved + {path}) == Only(backups, moved)[path := backups[path]];
  }

  lemma OneFewer(tree: Tree, path: Path)
    requires path in tree
    ensures |tree - {path}| < |tree|
  {
    assert (tree - {path}).Keys == tree.Keys - {path};
    assert |tree.Keys - {path}| == |tree.Keys| - 1;
  }

  lemma EverythingMoved(emptied: Tree, backups: Tree, moved: set<Path>)
    requires moved <= backups.Keys && Waiting(backups, moved) == map[]
    ensures moved == backups.Keys && Homeward(emptied, backups, moved) == emptied + backups
  {
    assert forall p | p in backups :: p in moved || p in Waiting(backups, moved);
    assert Only(backups, moved) == backups;
  }

  /**
   * A rollback that stopped after bringing home the backups in `moved`, and is then run once more from the
   * start, ends where an uninterrupted one does exactly when none of those backups is a journaled path.
   */
  lemma RestartAfterMoves(root: Tree, backup: Tree, committed: set<Path>, moved: set<Path>)
    requires moved <= backup.Keys
    ensures
      var midway := Homeward(root - committed, backup, moved);
      Restore(midway, Waiting(backup, moved), committed) == Restore(root, backup, committed) <==> moved !! committed
  {
    var midway := Homeward(root - committed, backup, moved);
    var again, whole := Restore(midway, Waiting(backup, moved), committed), Restore(root, backup, committed);
    if moved !! committed {
      assert forall p :: p in again <==> p in whole;
      assert forall p | p in again :: again[p] == whole[p];
    } else {
      var p :| p in moved && p in committed;
      assert p in whole && p !in again;
    }
  }

  /** The rollback of a replaced file loses that file when it is run twice. */
  lemma RestartExample(path: Path, older: Bytes, newer: Bytes)
    ensures
      var once := Restore(map[path := newer], map[path := older], {path});
      once == map[path := older] && Restore(once, map[], {path}) == map[]
  {
  }

  /** The old tree exactly, or the old tree with one new file of the build, rebuilt and verified. */
  ghost predicate RolledBack(codec: Codec, cache: map<Hash, Bytes>, files: seq<FileRecipe>, before: Tree, after: Tree) {
    || after == before
    || exists f | f in files && f.path !in before && Rebuild(codec, cache, f).Some? ::
         after == before[f.path := Rebuild(codec, cache, f).value]
  }

  lemma NothingLost(codec: Codec, cache: map<Hash, Bytes>, files: seq<FileRecipe>, tree: Tree)
    ensures RolledBack(codec, cache, files, tree, tree)
  {
  }

  ghost predicate InPlace(codec: Codec, cache: map<Hash, Bytes>, files: seq<FileRecipe>, tree: Tree) {
    forall f | f in files :: f.path in tree && Rebuild(codec, cache, f) == Some(tree[f.path])
  }

  /** Every file can be rebuilt from what the cache holds. */
  ghost predicate Rebuildable(codec: Codec, cache: map<Hash, Bytes>, files: seq<FileRecipe>) {
    forall f | f in files :: Rebuild(codec, cache, f).Some?
  }

  lemma OneMoreInPlace(codec: Codec, cache: map<Hash, Bytes>, files: seq<FileRecipe>, i: nat, tree: Tree)
    requires DistinctPaths(files) && i < |files| && InPlace(codec, cache, files[..i], tree)
    requires Rebuild(codec, cache, files[i]).Some?
    ensures InPlace(codec, cache, files[..i + 1], tree[files[i].path := Rebuild(codec, cache, files[i]).value])
    ensures Paths(files[..i + 1]) == Paths(files[..i]) + {files[i].path}
  {
    PathsGrow(files, i);
    assert files[..i + 1] == files[..i] + [files[i]];
  }

  /** Every file of the build was rebuilt into place and nothing else changed. */
  ghost predicate Installs(codec: Codec, cache: map<Hash, Bytes>, files: seq<FileRecipe>, before: Tree, after: Tree) {
    && after.Keys == before.Keys + Paths(files)
    && InPlace(codec, cache, files, after)
    && forall p | p in before && p !in Paths(files) :: p in after && after[p] == before[p]
  }

  /** A transaction that rolls back to `before`, and has placed and journaled every file, has installed the build. */
  lemma AllPlaced(codec: Codec, cache: map<Hash, Bytes>, files: seq<FileRecipe>, before: Tree, root: Tree, backup: Tree)
    requires Restore(root, backup, Paths(files)) == before && backup.Keys <= Paths(files)
    requires InPlace(codec, cache, files, root)
    ensures Installs(codec, cache, files, before, root)
  {
    var restored := Restore(root, backup, Paths(files));
    assert forall p | p !in Paths(files) :: p in restored <==> p in root;
    assert Paths(files) <= root.Keys;
  }

  function ByPath(files: seq<FileRecipe>): map<Path, FileRecipe>
    requires DistinctPaths(files)
  {
    map f | f in files :: f.path := f
  }

  /** A file of the next build that the previous build left in place, unmodified, with the same digest. */
  predicate Reuses(codec: Codec, previous: seq<FileRecipe>, tree: Tree, file: FileRecipe)
    requires DistinctPaths(previous)
  {
    && file.path in ByPath(previous)
    && var older := ByPath(previous)[file.path];
       older.blake3 == file.blake3 && Verifies(codec, tree, file.path, older.size, older.blake3)
  }

  /** The bytes of the files a run over `files` finds reusable. */
  function ReusedBytes(codec: Codec, previous: seq<FileRecipe>, tree: Tree, files: seq<FileRecipe>): nat
    requires DistinctPaths(previous)
  {
    if files == [] then 0 else
      var file := files[|files| - 1];
      ReusedBytes(codec, previous, tree,
                  files[..|files| - 1]) + (if Reuses(codec, previous, tree, file) then file.size else 0)
  }

  function ReusedPaths(codec: Codec, previous: seq<FileRecipe>, tree: Tree, files: seq<FileRecipe>): set<Path>
    requires DistinctPaths(previous)
  {
    set f | f in files && Reuses(codec, previous, tree, f) :: f.path
  }

  /** The paths that only the previous build owns. */
  function Obsolete(previous: seq<FileRecipe>, next: seq<FileRecipe>): set<Path> {
    Paths(previous) - Paths(next)
  }

  /** The files of one manifest that the other lacks or holds with another digest. */
  function DifferingBytes(files: seq<FileRecipe>, others: map<Path, FileRecipe>): nat {
    if files == [] then 0 else
      var file := files[|files| - 1];
      DifferingBytes(files[..|files| - 1], others)
      + (if file.path in others && others[file.path].blake3 == file.blake3 then 0 else file.size)
  }

  // ---- What the byte counts add up.

  /** The sizes, path by path, of the files at some paths. */
  ghost function SizesAt(files: seq<FileRecipe>, paths: set<Path>): map<Path, nat>
    requires DistinctPaths(files)
  {
    map f | f in files && f.path in paths :: f.path := f.size
  }

  /** The paths at which the others have no file, or one with another digest. */
  ghost function NewPaths(files: seq<FileRecipe>, others: seq<FileRecipe>): set<Path> {
    set f | f in files && (forall g | g in others :: g.path == f.path ==> g.blake3 != f.blake3) :: f.path
  }

  /** What an installation takes: every file of the build. */
  ghost function InstallNeeds(files: seq<FileRecipe>): nat
    requires DistinctPaths(files)
  {
    Sum(SizesAt(files, Paths(files)))
  }

  /** What an update takes at its peak: the files new to the old build, and the old ones new to the next. */
  ghost function UpdateNeeds(previous: seq<FileRecipe>, next: seq<FileRecipe>): nat
    requires DistinctPaths(previous) && DistinctPaths(next)
  {
    Sum(SizesAt(next, NewPaths(next, previous))) + Sum(SizesAt(previous, NewPaths(previous, next)))
  }

  lemma NoSizes(paths: set<Path>)
    ensures Sum(SizesAt([], paths)) == 0
  {
    assert SizesAt([], paths) == map[];
  }

  lemma SizesGrow(files: seq<FileRecipe>, paths: set<Path>)
    requires DistinctPaths(files) && files != []
    ensures
      var file, shorter := files[|files| - 1], files[..|files| - 1];
      && file in files && (forall f | f in shorter :: f in files)
      && Sum(SizesAt(files, paths)) == Sum(SizesAt(shorter, paths)) + if file.path in paths then file.size else 0
  {
    hide Sum, SizesAt, DistinctPaths;
    var file, shorter := files[|files| - 1], files[..|files| - 1];
    LastSize(files, paths);
    if file.path in paths {
      SumInsert(SizesAt(shorter, paths), file.path, file.size);
    }
  }

  lemma LastSize(files: seq<FileRecipe>, paths: set<Path>)
    requires DistinctPaths(files) && files != []
    ensures
      var file, shorter := files[|files| - 1], files[..|files| - 1];
      && DistinctPaths(shorter) && file in files && (forall f | f in shorter :: f in files)
      && file.path !in SizesAt(shorter, paths)
      && SizesAt(files, paths) ==
           if file.path in paths then SizesAt(shorter, paths)[file.path := file.size] else SizesAt(shorter, paths)
  {
    var file, shorter := files[|files| - 1], files[..|files| - 1];
    LastFile(files);
    var sizes, fewer := SizesAt(files, paths), SizesAt(shorter, paths);
    forall p ensures p in sizes <==> p in fewer || (p == file.path && p in paths) {
      if p == file.path && p in paths {
        assert file in files && file.path == p;
      }
    }
    forall p | p in fewer ensures p != file.path && p in sizes && sizes[p] == fewer[p] {
      var f :| f in shorter && f.path == p;
    }
  }

  lemma LastFile(files: seq<FileRecipe>)
    requires DistinctPaths(files) && files != []
    ensures
      var file, shorter := files[|files| - 1], files[..|files| - 1];
      && DistinctPaths(shorter) && (forall f :: f in files <==> f in shorter || f == file)
      && forall f | f in shorter :: f.path != file.path
  {
    var file, shorter := files[|files| - 1], files[..|files| - 1];
    assert files == shorter + [file];
  }

  /** The bytes an update asks for, on one side, are those of the files new to the other side. */
  lemma DifferingBytesMeans(files: seq<FileRecipe>, others: seq<FileRecipe>)
    requires DistinctPaths(files) && DistinctPaths(others)
    ensures DifferingBytes(files, ByPath(others)) == Sum(SizesAt(files, NewPaths(files, others)))
  {
    hide Sum, SizesAt, DifferingBytes;
    var paths := NewPaths(files, others);
    forall f | f in files
      ensures f.path in paths <==> !(f.path in ByPath(others) && ByPath(others)[f.path].blake3 == f.blake3)
    {
      forall h | h in files && h.path == f.path ensures h == f {
        PathDecides(files, f, h);
      }
      if f.path in ByPath(others) {
        forall g | g in others && g.path == f.path ensures g == ByPath(others)[f.path] {
          PathDecides(others, g, ByPath(others)[f.path]);
        }
      }
    }
    DifferingBytesWithin(files, ByPath(others), paths);
  }

  lemma {:induction false} DifferingBytesWithin(files: seq<FileRecipe>, others: map<Path, FileRecipe>, paths: set<Path>)
    requires DistinctPaths(files)
    requires forall f | f in files ::
               f.path in paths <==> !(f.path in others && others[f.path].blake3 == f.blake3)
    ensures DifferingBytes(files, others) == Sum(SizesAt(files, paths))
  {
    hide Sum, SizesAt;
    if files == [] {
      NoSizes(paths);
    } else {
      SizesGrow(files, paths);
      DifferingBytesWithin(files[..|files| - 1], others, paths);
    }
  }

  /** The size of a build is the sum of its files' sizes. */
  lemma SizeTotalMeans(files: seq<FileRecipe>)
    requires DistinctPaths(files)
    ensures SizeTotal(files) == InstallNeeds(files)
  {
    hide Sum, SizesAt, SizeTotal;
    SizeTotalWithin(files, Paths(files));
  }

  lemma {:induction false} SizeTotalWithin(files: seq<FileRecipe>, paths: set<Path>)
    requires DistinctPaths(files) && forall f | f in files :: f.path in paths
    ensures SizeTotal(files) == Sum(SizesAt(files, paths))
  {
    hide Sum, SizesAt;
    if files == [] {
      NoSizes(paths);
    } else {
      SizesGrow(files, paths);
      SizeTotalWithin(files[..|files| - 1], paths);
    }
  }

  /**
   * A file is reused exactly when the previous build has a recipe for its path with the same digest, and what is
   * at that path has the size and the digest of that recipe.
   */
  lemma ReusesMeans(codec: Codec, previous: seq<FileRecipe>, tree: Tree, file: FileRecipe)
    requires DistinctPaths(previous)
    ensures Reuses(codec, previous, tree, file) <==>
              exists older | older in previous ::
                && older.path == file.path && older.blake3 == file.blake3
                && file.path in tree && |tree[file.path]| == older.size && codec.hash(tree[file.path]) == older.blake3
  {
    forall older | older in previous && older.path == file.path ensures ByPath(previous)[file.path] == older {
      PathDecides(previous, older, ByPath(previous)[file.path]);
    }
  }

  /** What an update reports as reused is the sum of the sizes of the files reused. */
  lemma ReusedBytesMeans(codec: Codec, previous: seq<FileRecipe>, tree: Tree, files: seq<FileRecipe>)
    requires DistinctPaths(previous) && DistinctPaths(files)
    ensures ReusedBytes(codec, previous, tree, files) == Sum(SizesAt(files, ReusedPaths(codec, previous, tree, files)))
  {
    hide Sum, SizesAt, ReusedBytes, Reuses;
    var paths := ReusedPaths(codec, previous, tree, files);
    forall f | f in files ensures f.path in paths <==> Reuses(codec, previous, tree, f) {
      forall h | h in files && h.path == f.path ensures h == f {
        PathDecides(files, f, h);
      }
    }
    ReusedBytesWithin(codec, previous, tree, files, paths);
  }

  lemma {:induction false} ReusedBytesWithin(codec: Codec, previous: seq<FileRecipe>, tree: Tree,
                                             files: seq<FileRecipe>, paths: set<Path>)
    requires DistinctPaths(previous) && DistinctPaths(files)
    requires forall f | f in files :: f.path in paths <==> Reuses(codec, previous, tree, f)
    ensures ReusedBytes(codec, previous, tree, files) == Sum(SizesAt(files, paths))
  {
    hide Sum, SizesAt, Reuses;
    if files == [] {
      NoSizes(paths);
    } else {
      SizesGrow(files, paths);
      ReusedBytesWithin(codec, previous, tree, files[..|files| - 1], paths);
    }
  }

  /** The files only the previous build owns are gone, those of the next are in place, all others are untouched. */
  ghost predicate Updates(codec: Codec, cache: map<Hash, Bytes>, previous: seq<FileRecipe>, next: seq<FileRecipe>,
                          before: Tree, after: Tree)
    requires DistinctPaths(previous)
  {
    && after.Keys == (before.Keys - Obsolete(previous, next)) + Paths(next)
    && (forall p | p in after && p !in Paths(next) :: p in before && after[p] == before[p])
    && forall f | f in next :: f.path in after &&
         if Reuses(codec, previous, before, f) then f.path in before && after[f.path] == before[f.path]
         else Rebuild(codec, cache, f) == Some(after[f.path])
  }

  /** The new files among `files` are where `at` has them. */
  ghost predicate Changed(codec: Codec, cache: map<Hash, Bytes>, files: seq<FileRecipe>, at: Tree, paths: set<Path>) {
    forall f | f in files && f.path in paths :: f.path in at && Rebuild(codec, cache, f) == Some(at[f.path])
  }

  lemma NothingChanged(codec: Codec, cache: map<Hash, Bytes>, files: seq<FileRecipe>, tree: Tree)
    ensures Changed(codec, cache, files, tree, {}) && Restore(tree, map[], {}) == tree && Paths(files[..0]) == {}
  {
  }

  /** The files seen so far were each reused or staged, and the counters say which. */
  ghost predicate Staged(codec: Codec, cache: map<Hash, Bytes>, previous: seq<FileRecipe>, tree: Tree,
                         files: seq<FileRecipe>,
                         staging: Tree, kept: set<Path>, reused: nat, reconstructed: nat, changed: nat)
    requires DistinctPaths(previous)
  {
    && kept == ReusedPaths(codec, previous, tree, files)
    && Changed(codec, cache, files, staging, Paths(files) - kept)
    && reused == ReusedBytes(codec, previous, tree, files)
    && reused + reconstructed == SizeTotal(files)
    && changed + |kept| == |files|
  }

  lemma ReuseGrows(codec: Codec, previous: seq<FileRecipe>, tree: Tree, files: seq<FileRecipe>, i: nat)
    requires DistinctPaths(previous) && DistinctPaths(files) && i < |files|
    ensures
      var file, shorter, longer := files[i], files[..i], files[..i + 1];
      && SizeTotal(longer) == SizeTotal(shorter) + file.size
      && file.path !in ReusedPaths(codec, previous, tree, shorter)
      && if Reuses(codec, previous, tree, file)
         then && ReusedPaths(codec, previous, tree, longer) == ReusedPaths(codec, previous, tree, shorter) + {file.path}
              && ReusedBytes(codec, previous, tree, longer) == ReusedBytes(codec, previous, tree, shorter) + file.size
         else && ReusedPaths(codec, previous, tree, longer) == ReusedPaths(codec, previous, tree, shorter)
              && ReusedBytes(codec, previous, tree, longer) == ReusedBytes(codec, previous, tree, shorter)
  {
    var file, shorter, longer := files[i], files[..i], files[..i + 1];
    assert longer[..|longer| - 1] == shorter && longer[|longer| - 1] == file;
    assert forall f :: f in longer <==> f in shorter || f == file;
  }

  lemma ChangedGrows(codec: Codec, cache: map<Hash, Bytes>, files: seq<FileRecipe>, i: nat, at: Tree, kept: set<Path>)
    requires DistinctPaths(files) && i < |files|
    requires Changed(codec, cache, files[..i], at, Paths(files[..i]) - kept)
    ensures Changed(codec, cache, files[..i + 1], at, Paths(files[..i + 1]) - (kept + {files[i].path}))
    ensures Rebuild(codec, cache, files[i]).Some? ==>
              var larger := at[files[i].path := Rebuild(codec, cache, files[i]).value];
              Changed(codec, cache, files[..i + 1], larger, Paths(files[..i + 1]) - kept)
  {
    PathsGrow(files, i);
    assert forall f | f in files[..i] :: f.path != files[i].path;
  }

  lemma StagedGrows(codec: Codec, cache: map<Hash, Bytes>, previous: seq<FileRecipe>, tree: Tree,
                    files: seq<FileRecipe>, i: nat,
                    staging: Tree, kept: set<Path>, reused: nat, reconstructed: nat, changed: nat)
    requires DistinctPaths(previous) && DistinctPaths(files) && i < |files|
    requires Staged(codec, cache, previous, tree, files[..i], staging, kept, reused, reconstructed, changed)
    ensures Reuses(codec, previous, tree, files[i]) ==>
              Staged(codec, cache, previous, tree, files[..i + 1], staging, kept + {files[i].path},
                     reused + files[i].size, reconstructed, changed)
    ensures !Reuses(codec, previous, tree, files[i]) && Rebuild(codec, cache, files[i]).Some? ==>
              Staged(codec, cache, previous, tree, files[..i + 1],
                     staging[files[i].path := Rebuild(codec, cache, files[i]).value],
                     kept, reused, reconstructed + files[i].size, changed + 1)
  {
    ReuseGrows(codec, previous, tree, files, i);
    ChangedGrows(codec, cache, files, i, staging, kept);
    assert |kept + {files[i].path}| == |kept| + 1;
  }

  /** Moving one staged file into the root moves it from the one side of the account to the other. */
  lemma ChangedMoves(codec: Codec, cache: map<Hash, Bytes>, files: seq<FileRecipe>, root: Tree, staging: Tree,
                     placed: set<Path>, waiting: set<Path>, file: FileRecipe)
    requires DistinctPaths(files) && file in files && file.path in waiting && file.path in staging
    requires Changed(codec, cache, files, root, placed) && Changed(codec, cache, files, staging, waiting)
    ensures Changed(codec, cache, files, root[file.path := staging[file.path]], placed + {file.path})
    ensures Changed(codec, cache, files, staging - {file.path}, waiting - {file.path})
  {
  }

  /**
   * A transaction that rolls back to `before`, has taken away the obsolete files and has placed every file
   * that was not reused, has updated the build.
   */
  lemma AllSwapped(codec: Codec, cache: map<Hash, Bytes>, previous: seq<FileRecipe>, next: seq<FileRecipe>,
                   before: Tree, root: Tree, backup: Tree, swapped: set<Path>)
    requires DistinctPaths(previous) && DistinctPaths(next)
    requires swapped == Paths(next) - ReusedPaths(codec, previous, before, next)
    requires Restore(root, backup, swapped) == before
    requires Obsolete(previous, next) * before.Keys <= backup.Keys <= Obsolete(previous, next) + swapped
    requires backup.Keys * root.Keys <= swapped
    requires Changed(codec, cache, next, root, swapped)
    ensures Updates(codec, cache, previous, next, before, root)
  {
    var reused := ReusedPaths(codec, previous, before, next);
    assert forall p | p !in swapped && p !in backup ::
        (p in root <==> p in before) && (p in root ==> root[p] == before[p]) by {
      var restored := Restore(root, backup, swapped);
      assert forall p | p !in swapped && p !in backup :: p in restored <==> p in root;
    }
    forall f | f in next
      ensures f.path in root
      ensures if Reuses(codec, previous, before, f) then f.path in before && root[f.path] == before[f.path]
              else Rebuild(codec, cache, f) == Some(root[f.path])
    {
      if Reuses(codec, previous, before, f) {
        assert f.path in reused && f.path !in backup;
      } else {
        assert f.path !in reused;
        assert f.path in swapped;
      }
    }
    assert forall p | p in root && p !in Paths(next) :: p !in swapped && p !in backup;
  }

  /** Which files of a manifest fail verification in a tree, in manifest order. */
  function Invalid(codec: Codec, files: seq<FileRecipe>, tree: Tree): seq<Path> {
    if files == [] then [] else
      (if Verifies(codec, tree, files[0].path, files[0].size, files[0].blake3) then [] else [files[0].path])
      + Invalid(codec, files[1..], tree)
  }

  lemma {:induction false} InvalidMeaning(codec: Codec, files: seq<FileRecipe>, tree: Tree, path: Path)
    requires DistinctPaths(files)
    ensures path in Invalid(codec, files, tree) <==>
            exists f | f in files :: f.path == path && !Verifies(codec, tree, path, f.size, f.blake3)
  {
    if files == [] {
    } else {
      InvalidMeaning(codec, files[1..], tree, path);
      assert files == [files[0]] + files[1..];
    }
  }

  /** Every file verifies, except perhaps those at the listed paths. */
  ghost predicate HealthyExcept(codec: Codec, files: seq<FileRecipe>, bad: seq<Path>, tree: Tree) {
    forall f | f in files && f.path !in bad :: Verifies(codec, tree, f.path, f.size, f.blake3)
  }

  lemma InvalidPaths(codec: Codec, files: seq<FileRecipe>, tree: Tree)
    requires DistinctPaths(files)
    ensures forall p | p in Invalid(codec, files, tree) ::
              p in ByPath(files) && ByPath(files)[p] in files && ByPath(files)[p].path == p
    ensures HealthyExcept(codec, files, Invalid(codec, files, tree), tree)
  {
    forall p ensures p in Invalid(codec, files, tree) <==>
                     exists f | f in files :: f.path == p && !Verifies(codec, tree, p, f.size, f.blake3) {
      InvalidMeaning(codec, files, tree, p);
    }
  }

  lemma HealthyGrows(codec: Codec, cache: map<Hash, Bytes>, files: seq<FileRecipe>, bad: seq<Path>, tree: Tree,
                     file: FileRecipe)
    requires DistinctPaths(files) && bad != [] && file in files && file.path == bad[0]
    requires HealthyExcept(codec, files, bad, tree)
    ensures Rebuild(codec, cache, file).Some? ==>
              HealthyExcept(codec, files, bad[1..], tree[file.path := Rebuild(codec, cache, file).value])
  {
    if Rebuild(codec, cache, file).Some? {
      var healed := tree[file.path := Rebuild(codec, cache, file).value];
      forall f | f in files && f.path !in bad[1..] ensures Verifies(codec, healed, f.path, f.size, f.blake3) {
        if f.path != file.path {
          assert f.path !in bad;
        } else {
          PathDecides(files, f, file);
        }
      }
    }
  }

  /** An installed build passes its own verification. */
  lemma {:induction false} InstalledVerifies(codec: Codec, cache: map<Hash, Bytes>, files: seq<FileRecipe>, tree: Tree)
    requires InPlace(codec, cache, files, tree)
    ensures Invalid(codec, files, tree) == []
  {
    if files == [] {
    } else {
      assert files[0] in files;
      InstalledVerifies(codec, cache, files[1..], tree);
    }
  }

  /**
   * After a completed update every file of the next build has its digest, and verification complains about
   * a path exactly when its file was reused under a recipe of another size.
   */
  lemma VerificationAfterUpdate(codec: Codec, cache: map<Hash, Bytes>, previous: seq<FileRecipe>, next: seq<FileRecipe>,
                                before: Tree, after: Tree, path: Path)
    requires DistinctPaths(previous) && DistinctPaths(next)
    requires Updates(codec, cache, previous, next, before, after)
    ensures forall f | f in next :: codec.hash(after[f.path]) == f.blake3
    ensures path in Invalid(codec, next, after) <==>
            exists f | f in next ::
                f.path == path && Reuses(codec, previous, before, f) && ByPath(previous)[path].size != f.size
  {
    InvalidMeaning(codec, next, after, path);
    forall f | f in next
      ensures codec.hash(after[f.path]) == f.blake3
      ensures Verifies(codec, after, f.path, f.size, f.blake3) <==>
              !(Reuses(codec, previous, before, f) && ByPath(previous)[f.path].size != f.size)
    {
    }
  }

  /** One byte at path "a", whose digest the recipe claims, in one chunk of the given size. */
  function ByteRecipe(h: Hash, size: nat): FileRecipe {
    FileRecipe("a", size, h, [ChunkRef(h, size, h, size, ObjectKey(h))])
  }

  /**
   * Two valid manifests that give one file the same digest and different sizes. The file on disk has the digest, so
   * the update keeps it; nothing changes, the update is complete, and verification complains.
   */
  lemma KeptUnderAnotherSize(codec: Codec, cache: map<Hash, Bytes>, h: Hash)
    requires IsHash(h) && codec.hash([7]) == h
    ensures
      var previous, next, tree: Tree := [ByteRecipe(h, 1)], [ByteRecipe(h, 2)], map["a" := [7]];
      && ValidFiles(previous) && ValidFiles(next)
      && Updates(codec, cache, previous, next, tree, tree)
      && Invalid(codec, next, tree) == ["a"]
  {
    var previous, next, tree: Tree := [ByteRecipe(h, 1)], [ByteRecipe(h, 2)], map["a" := [7]];
    OneRecipe(h, 1);
    OneRecipe(h, 2);
    assert ByPath(previous)["a"] == ByteRecipe(h, 1);
    assert Reuses(codec, previous, tree, next[0]);
    assert Paths(next) == {"a"} == Paths(previous);
    assert next[1..] == [];
  }

  lemma OneRecipe(h: Hash, size: nat)
    requires IsHash(h) && 0 < size < U64_LIMIT
    ensures ValidFiles([ByteRecipe(h, size)])
  {
    var chunk := ChunkRef(h, size, h, size, ObjectKey(h));
    assert [chunk][1..] == [];
    assert RawTotal([chunk]) == size;
    assert ValidFile(ByteRecipe(h, size));
    assert forall f | f in [ByteRecipe(h, size)] :: f == ByteRecipe(h, size);
    assert forall c | c in ChunksOf([ByteRecipe(h, size)]) :: c == chunk;
  }
}
