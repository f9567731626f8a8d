/**
 * The transactional installer: install, update, recovery, verification and repair over one installation root.
 *
 * Every step that touches the disk or the database may instead fail with an exception, which the surrounding
 * code catches to leave a failure journal, or may never happen because the process dies. Both are chosen
 * freely at each step, so what the methods ensure holds wherever a run stops.
 */
module Installer {
  import opened Common
  import opened Manifests
  import opened MapSums
  import opened Reconstruction
  import opened Transactions

  const LONG_LIMIT: nat := 0x8000_0000_0000_0000

  datatype Fate = Proceed | Throw | Crash

  datatype JournalState = Started | FilesystemCommitted | RecoverableFailure | Committed

  datatype Journal = Journal(gameId: string, newBuildId: string, state: JournalState, committed: seq<Path>,
                             removed: seq<Path>)

  datatype InstalledGame = InstalledGame(buildId: string, installRoot: string)

  /** How an operation ended; `unjournaled` when it stopped between placing a file and recording that in the journal. */
  datatype Outcome = Rejected | Stopped(unjournaled: bool) | Finished

  datatype RecoveryOutcome = Recovered | StoppedEarly | StoppedMovingBackups

  datatype UpdateSummary = UpdateSummary(reusedInstalledBytes: nat, reconstructedBytes: nat,
                                         addedFiles: nat, changedFiles: nat, removedFiles: nat)

  /** The free space is known to be less than this, or this is no signed 64-bit number. */
  ghost predicate TooLittle(available: Option<nat>, needs: nat) {
    needs > 9_223_372_036_854_775_807 || (available.Some? && available.value < needs)
  }

  class Installation {
    const codec: Codec
    const cache: map<Hash, Bytes>
    const location: string

    var root: Tree

    /** Partial files. The one transaction under way knows them by their path, a repair by a name of its own. */
    var partials: map<string, Bytes>
    var staging: Tree
    var backup: Tree
    var journal: Option<Journal>
    var database: map<string, InstalledGame>

    /** Whether any step so far failed or was cut short. */
    ghost var disturbed: bool

    constructor (codec: Codec, cache: map<Hash, Bytes>, location: string, root: Tree,
                 database: map<string, InstalledGame>)
      ensures this.codec == codec && this.cache == cache && this.location == location
      ensures this.root == root && this.database == database && Idle() && !disturbed
    {
      this.codec, this.cache, this.location, this.root, this.database := codec, cache, location, root, database;
      partials, staging, backup, journal := map[], map[], map[], None;
      disturbed := false;
    }

    /** No transaction is under way and none is waiting to be recovered. */
    ghost predicate Idle()
      reads this
    {
      journal.None? && backup == map[] && staging == map[] && partials == map[]
    }

    predicate Records(gameId: string, buildId: string)
      reads this`database
    {
      gameId in database && database[gameId] == InstalledGame(buildId, location)
    }

    /** What a complete recovery, started now, would make of the installation root. */
    ghost function AfterRecovery(): Tree
      reads this
    {
      if journal.None? || journal.value.state == Committed || Records(journal.value.gameId, journal.value.newBuildId)
      then root
      else Restore(root, backup, Elements(journal.value.committed))
    }

    /** The checked sum of sizes and the comparison with the free space, where that is known. */
    static method EnsureCapacity(available: Option<nat>, required: nat) returns (enough: bool)
      ensures enough <==> !TooLittle(available, required)
    {
      if required >= LONG_LIMIT {
        return false;
      }
      return match available case None => true case Some(bytes) => bytes >= required;
    }

    // ---- Single steps. Each one happens as a whole or not at all.

    /** How the next step turns out, chosen freely. */
    method Chance() returns (fate: Fate)
      modifies this`disturbed
      ensures disturbed == (old(disturbed) || fate != Proceed)
    {
      fate := *;
      if fate != Proceed {
        disturbed := true;
      }
    }

    method WriteJournal(next: Journal) returns (fate: Fate)
      modifies this`journal, this`disturbed
      ensures journal == if fate == Proceed then Some(next) else old(journal)
      ensures disturbed == (old(disturbed) || fate != Proceed)
    {
      fate := Chance();
      if fate == Proceed {
        journal := Some(next);
      }
    }

    /** Writes a rebuilt file under the name of its partial file; a crash may leave any beginning of it. */
    method WritePartial(file: FileRecipe, name: string) returns (fate: Fate)
      modifies this`partials, this`disturbed
      ensures fate == Proceed ==> Rebuild(codec, cache, file).Some?
      ensures fate == Proceed ==> partials == old(partials)[name := Rebuild(codec, cache, file).value]
      ensures partials - {name} == old(partials) - {name}
      ensures fate == Throw ==> partials == old(partials)
      ensures disturbed == (old(disturbed) || (fate != Proceed && Rebuild(codec, cache, file).Some?))
    {
      var content := ReconstructFile(codec, cache, file);
      if content.None? {
        return Throw;
      }
      fate := Chance();
      if fate == Proceed {
        partials := partials[name := content.value];
      } else if fate == Crash {
        var written :| 0 <= written <= |content.value|;
        partials := partials[name := content.value[..written]];
      }
    }

    method BackupExisting(path: Path) returns (fate: Fate)
      modifies this`root, this`backup, this`disturbed
      ensures fate == Proceed ==> root == old(root) - {path}
      ensures fate == Proceed ==>
                backup == if path in old(root) then old(backup)[path := old(root)[path]] else old(backup)
      ensures fate != Proceed ==> root == old(root) && backup == old(backup)
      ensures disturbed == (old(disturbed) || fate != Proceed)
    {
      fate := Chance();
      if fate == Proceed && path in root {
        backup := backup[path := root[path]];
        root := root - {path};
      }
      if fate == Proceed {
        assert path !in root;
        assert root == old(root) - {path};
      }
    }

    method PlacePartial(name: string, path: Path) returns (fate: Fate)
      requires name in partials
      modifies this`root, this`partials, this`disturbed
      ensures root == if fate == Proceed then old(root)[path := old(partials)[name]] else old(root)
      ensures partials == if fate == Proceed then old(partials) - {name} else old(partials)
      ensures disturbed == (old(disturbed) || fate != Proceed)
    {
      fate := Chance();
      if fate == Proceed {
        root := root[path := partials[name]];
        partials := partials - {name};
      }
    }

    method PlaceStaged(path: Path) returns (fate: Fate)
      requires path in staging
      modifies this`root, this`staging, this`disturbed
      ensures root == if fate == Proceed then old(root)[path := old(staging)[path]] else old(root)
      ensures fate == Proceed ==> staging == old(staging) - {path}
      ensures disturbed == (old(disturbed) || fate != Proceed)
    {
      fate := Chance();
      if fate == Proceed {
        root := root[path := staging[path]];
        staging := staging - {path};
      }
    }

    method SaveInstalledGame(gameId: string, buildId: string) returns (fate: Fate)
      modifies this`database, this`disturbed
      ensures database ==
                if fate == Proceed then old(database)[gameId := InstalledGame(buildId, location)] else old(database)
      ensures disturbed == (old(disturbed) || fate != Proceed)
    {
      fate := Chance();
      if fate == Proceed {
        database := database[gameId := InstalledGame(buildId, location)];
      }
    }

    /** The catch block: after an exception, try to leave a failure journal. */
    method Abandon(fate: Fate, current: Journal)
      modifies this`journal, this`disturbed
      ensures journal == old(journal) || journal == Some(current.(state := RecoverableFailure))
      ensures old(disturbed) ==> disturbed
    {
      if fate == Throw {
        var _ := WriteJournal(current.(state := RecoverableFailure));
      }
    }

    /** Deletes the backup and then the journal; stops between the two at worst. */
    method CleanupTransaction() returns (fate: Fate)
      modifies this`backup, this`journal, this`disturbed
      ensures fate == Proceed ==> backup == map[] && journal == None
      ensures fate != Proceed ==> journal == old(journal) && (backup == old(backup) || backup == map[])
      ensures disturbed == (old(disturbed) || fate != Proceed)
    {
      fate := Chance();
      if fate != Proceed {
        return;
      }
      backup := map[];
      fate := Chance();
      if fate == Proceed {
        journal := None;
      }
    }

    // ---- Commit, shared by install and update.

    /** Filesystem commit, database commit and cleanup, once every file is in place. */
    method Commit(current: Journal) returns (finished: bool)
      requires current.state == Started && !Records(current.gameId, current.newBuildId)
      requires journal.Some? && journal.value.(removed := current.removed) == current
      modifies this`journal, this`database, this`backup, this`disturbed
      ensures Records(current.gameId, current.newBuildId) ==>
                && database == old(database)[current.gameId := InstalledGame(current.newBuildId, location)]
                && (journal.Some? ==>
                     journal.value.gameId == current.gameId && journal.value.newBuildId == current.newBuildId)
      ensures !Records(current.gameId, current.newBuildId) ==>
                && database == old(database) && backup == old(backup)
                && journal.Some? && journal.value.(state := Started, removed := current.removed) == current
                && journal.value.state != Committed
      ensures journal.None? ==> backup == map[]
      ensures finished ==> Records(current.gameId, current.newBuildId) && journal == None
      ensures old(disturbed) ==> disturbed
      ensures !finished ==> disturbed
    {
      var next := current.(state := FilesystemCommitted);
      var fate := WriteJournal(next);
      if fate == Proceed {
        fate := SaveInstalledGame(next.gameId, next.newBuildId);
      }
      if fate == Proceed {
        next := next.(state := Committed);
        fate := WriteJournal(next);
      }
      if fate == Proceed {
        fate := CleanupTransaction();
      }
      if fate != Proceed {
        Abandon(fate, next);
      }
      finished := fate == Proceed;
    }

    // ---- Install.

    /** The first `count` files are in place and journaled, and a rollback would bring back the tree `before`. */
    ghost predicate Installing(manifest: Manifest, count: nat, before: Tree, current: Journal)
      reads this
    {
      && count <= |manifest.files|
      && !Records(manifest.gameId, manifest.buildId)
      && journal == Some(current) && staging == map[] && partials == map[]
      && current == Journal(manifest.gameId, manifest.buildId, Started, current.committed, [])
      && Elements(current.committed) == Paths(manifest.files[..count])
      && backup.Keys <= Paths(manifest.files[..count])
      && InPlace(codec, cache, manifest.files[..count], root)
      && Restore(root, backup, Elements(current.committed)) == before
    }

    /** Rebuild one file beside its destination, back up what is there, and move the new file in. */
    method ReplaceFromCache(file: FileRecipe, ghost committed: set<Path>) returns (fate: Fate)
      requires partials == map[] && file.path !in backup && file.path !in committed
      modifies this`root, this`partials, this`backup, this`disturbed
      ensures fate == Proceed ==> partials == map[] && Rebuild(codec, cache, file).Some?
      ensures fate == Proceed ==>
                Replaced(old(root), old(backup), file.path, Rebuild(codec, cache, file).value, committed)
      ensures fate != Proceed ==> Restore(root, backup, committed) == old(Restore(root, backup, committed))
      ensures disturbed == (old(disturbed) || (fate != Proceed && Rebuild(codec, cache, file).Some?))
    {
      var path := file.path;
      fate := WritePartial(file, path);
      if fate == Proceed {
        TakingIsUndone(root, backup, committed, path);
        fate := BackupExisting(path);
      }
      if fate == Proceed {
        PlacingIsUndone(root, backup, committed, path, partials[path]);
        fate := PlacePartial(path, path);
      }
      if fate != Crash {
        partials := partials - {path};
      }
    }

    /** A path now holds new bytes, its old file is in the backup, and a rollback undoes both once this is journaled. */
    ghost predicate Replaced(root0: Tree, backup0: Tree, path: Path, bytes: Bytes, committed: set<Path>)
      reads this`root, this`backup
    {
      var undone := Restore(root0, backup0, committed);
      && root == root0[path := bytes]
      && backup == (if path in root0 then backup0[path := root0[path]] else backup0)
      && Restore(root, backup, committed + {path}) == undone
      && Restore(root, backup, committed) == (if path in undone then undone else undone[path := bytes])
    }

    /** What recovery would leave is the old tree, or the old tree with this new file. */
    ghost predicate AtMostOneExtra(before: Tree, file: FileRecipe)
      reads this
    {
      || AfterRecovery() == before
      || (file.path !in before && Rebuild(codec, cache, file).Some? &&
          AfterRecovery() == before[file.path := Rebuild(codec, cache, file).value])
    }

    /** Records a replaced file in the journal. */
    method JournalReplaced(ghost before: Tree, file: FileRecipe, current: Journal)
      returns (next: Journal, outcome: Outcome)
      requires current.state == Started && !Records(current.gameId, current.newBuildId)
      requires journal.Some? && journal.value.(removed := current.removed) == current
      requires Rebuild(codec, cache, file).Some?
      requires Restore(root, backup, Elements(current.committed) + {file.path}) == before
      requires Restore(root, backup, Elements(current.committed))
            == (if file.path in before then before else before[file.path := Rebuild(codec, cache, file).value])
      modifies this`journal, this`disturbed
      ensures journal.Some?
      ensures outcome == Finished ==>
                && journal == Some(next) && next == current.(committed := current.committed + [file.path])
                && Elements(next.committed) == Elements(current.committed) + {file.path}
      ensures outcome != Finished ==> outcome == Stopped(true) && AtMostOneExtra(before, file)
      ensures old(disturbed) ==> disturbed
      ensures outcome != Finished ==> disturbed
    {
      next := current.(committed := current.committed + [file.path]);
      assert Elements(next.committed) == Elements(current.committed) + {file.path};
      var fate := WriteJournal(next);
      if fate == Proceed {
        return next, Finished;
      }
      Abandon(fate, next);
      return next, Stopped(true);
    }

    /** One pass of the install loop: replace one file and journal that. */
    method InstallFile(manifest: Manifest, i: nat, ghost before: Tree, current: Journal)
      returns (next: Journal, outcome: Outcome)
      requires i < |manifest.files| && DistinctPaths(manifest.files) && Installing(manifest, i, before, current)
      modifies this`root, this`partials, this`backup, this`journal, this`disturbed
      ensures journal.Some?
      ensures outcome == Finished ==> Installing(manifest, i + 1, before, next)
      ensures outcome != Finished ==> outcome.Stopped?
      ensures outcome == Stopped(false) ==> AfterRecovery() == before
      ensures outcome == Stopped(true) ==> AtMostOneExtra(before, manifest.files[i])
      ensures old(disturbed) ==> disturbed
      ensures outcome != Finished && Rebuild(codec, cache, manifest.files[i]).Some? ==> disturbed
    {
      var file := manifest.files[i];
      PathsGrow(manifest.files, i);
      var fate := ReplaceFromCache(file, Elements(current.committed));
      if fate != Proceed {
        Abandon(fate, current);
        return current, Stopped(false);
      }
      OneMoreInPlace(codec, cache, manifest.files, i, old(root));
      next, outcome := JournalReplaced(before, file, current);
    }

    /**
     * Wherever it stops, a complete recovery ends with the whole new build when the database records it,
     * and otherwise with the old files and at most the one file that was placed but not yet journaled.
     */
    method Install(manifest: Manifest, available: Option<nat>) returns (outcome: Outcome)
      requires Idle() && !Records(manifest.gameId, manifest.buildId)
      modifies this
      ensures Records(manifest.gameId, manifest.buildId) ==>
                && database == old(database)[manifest.gameId := InstalledGame(manifest.buildId, location)]
                && AfterRecovery() == root && Installs(codec, cache, manifest.files, old(root), root)
      ensures !Records(manifest.gameId, manifest.buildId) ==>
                && database == old(database)
                && RolledBack(codec, cache, manifest.files, old(root), AfterRecovery())
                && (outcome != Stopped(true) ==> AfterRecovery() == old(root))
      ensures journal.None? ==> backup == map[]
      ensures outcome == Finished ==> Records(manifest.gameId, manifest.buildId) && Idle()
      ensures outcome == Rejected ==> root == old(root) && database == old(database) && Idle()
      ensures !ValidFiles(manifest.files) ==> outcome == Rejected
      ensures ValidFiles(manifest.files) ==>
                (outcome == Rejected <==> TooLittle(available, InstallNeeds(manifest.files)))
      ensures outcome.Stopped? && Rebuildable(codec, cache, manifest.files) ==> disturbed
    {
      hide InstallNeeds, SizesAt, Sum, SizeTotal;
      ghost var before := root;
      var files := manifest.files;
      var valid := Validate(files);
      if ValidFiles(files) {
        SizeTotalMeans(files);
      }
      if valid.Err? {
        return Rejected;
      }
      var enough := EnsureCapacity(available, SizeTotal(files));
      if !enough {
        return Rejected;
      }
      var current := Journal(manifest.gameId, manifest.buildId, Started, [], []);
      var fate := WriteJournal(current);
      if fate != Proceed {
        return Stopped(false);
      }
      for i := 0 to |files|
        invariant Installing(manifest, i, before, current) && database == old(database)
      {
        current, outcome := InstallFile(manifest, i, before, current);
        if outcome != Finished {
          return outcome;
        }
      }
      assert files[..|files|] == files;
      AllPlaced(codec, cache, files, before, root, backup);
      var finished := Commit(current);
      return if finished then Finished else Stopped(false);
    }

    // ---- Update.

    method MoveToStaging(path: Path) returns (fate: Fate)
      requires path in partials
      modifies this`staging, this`partials, this`disturbed
      ensures staging == if fate == Proceed then old(staging)[path := old(partials)[path]] else old(staging)
      ensures fate == Proceed ==> partials == old(partials) - {path}
      ensures disturbed == (old(disturbed) || fate != Proceed)
    {
      fate := Chance();
      if fate == Proceed {
        staging := staging[path := partials[path]];
        partials := partials - {path};
      }
    }

    method StageFile(file: FileRecipe) returns (fate: Fate)
      requires partials == map[]
      modifies this`staging, this`partials, this`disturbed
      ensures fate == Proceed ==>
                && Rebuild(codec, cache, file).Some? && partials == map[]
                && staging == old(staging)[file.path := Rebuild(codec, cache, file).value]
      ensures disturbed == (old(disturbed) || (fate != Proceed && Rebuild(codec, cache, file).Some?))
    {
      fate := WritePartial(file, file.path);
      if fate == Proceed {
        fate := MoveToStaging(file.path);
      }
      if fate != Crash {
        partials := partials - {file.path};
      }
    }

    /** Stages every file of the next build that cannot be reused, and counts what is reused. */
    method Stage(previous: Manifest, next: Manifest)
      returns (fate: Fate, kept: set<Path>, reused: nat, reconstructed: nat, changed: nat)
      requires DistinctPaths(previous.files) && DistinctPaths(next.files) && partials == map[] && staging == map[]
      modifies this`staging, this`partials, this`disturbed
      ensures fate == Proceed ==> partials == map[]
      ensures fate == Proceed ==>
                Staged(codec, cache, previous.files, root, next.files, staging, kept, reused, reconstructed, changed)
      ensures old(disturbed) ==> disturbed
      ensures fate != Proceed && Rebuildable(codec, cache, next.files) ==> disturbed
    {
      var files := next.files;
      kept, reused, reconstructed, changed := {}, 0, 0, 0;
      for i := 0 to |files|
        invariant partials == map[] && disturbed == old(disturbed)
        invariant Staged(codec, cache, previous.files, root, files[..i], staging, kept, reused, reconstructed, changed)
      {
        var file := files[i];
        StagedGrows(codec, cache, previous.files, root, files, i, staging, kept, reused, reconstructed, changed);
        if Reuses(codec, previous.files, root, file) {
          kept := kept + {file.path};
          reused := reused + file.size;
        } else {
          changed := changed + 1;
          reconstructed := reconstructed + file.size;
          fate := StageFile(file);
          if fate != Proceed {
            return;
          }
        }
      }
      assert files[..|files|] == files;
      fate := Proceed;
    }

    method ReplaceFromStaging(path: Path, ghost committed: set<Path>) returns (fate: Fate)
      requires path in staging && path !in backup && path !in committed
      modifies this`root, this`staging, this`backup, this`disturbed
      ensures fate == Proceed ==> Replaced(old(root), old(backup), path, old(staging)[path], committed)
      ensures fate == Proceed ==> staging == old(staging) - {path}
      ensures fate != Proceed ==> Restore(root, backup, committed) == old(Restore(root, backup, committed))
      ensures disturbed == (old(disturbed) || fate != Proceed)
    {
      TakingIsUndone(root, backup, committed, path);
      fate := BackupExisting(path);
      if fate == Proceed {
        PlacingIsUndone(root, backup, committed, path, staging[path]);
        fate := PlaceStaged(path);
      }
    }

    /** The journal on disk lags behind the one in memory at most in the removed paths. */
    predicate Journaled(current: Journal)
      reads this`journal, this`database
    {
      && !Records(current.gameId, current.newBuildId) && current.state == Started
      && journal.Some? && journal.value.(removed := current.removed) == current
    }

    /** Moves the files that only the previous build owns into the backup; the journal is not rewritten here. */
    method RemoveObsolete(previous: Manifest, next: Manifest, start: Journal) returns (fate: Fate, current: Journal)
      requires DistinctPaths(previous.files) && Journaled(start) && backup == map[] && start.committed == []
      modifies this`root, this`backup, this`disturbed
      ensures current.(removed := start.removed) == start
      ensures Restore(root, backup, {}) == old(root)
      ensures backup.Keys !! root.Keys
      ensures fate == Proceed ==> backup.Keys == Obsolete(previous.files, next.files) * old(root).Keys
      ensures old(disturbed) ==> disturbed
      ensures fate != Proceed ==> disturbed
    {
      var files, owned := previous.files, Paths(next.files);
      current, fate := start, Proceed;
      for i := 0 to |files|
        invariant current.(removed := start.removed) == start && fate == Proceed && disturbed == old(disturbed)
        invariant Restore(root, backup, {}) == old(root) && backup.Keys !! root.Keys
        invariant backup.Keys == (Paths(files[..i]) - owned) * old(root).Keys
      {
        var path := files[i].path;
        PathsGrow(files, i);
        ghost var undone := Restore(root, backup, {});
        if path !in owned && path in root {
          TakingIsUndone(root, backup, {}, path);
          fate := BackupExisting(path);
          if fate != Proceed {
            return;
          }
          current := current.(removed := current.removed + [path]);
        } else {
          assert path in undone ==> path in root || path in backup;
        }
      }
      assert files[..|files|] == files;
    }

    /** The paths swapped so far: those of the first `count` files that were not kept. */
    ghost function SwappedPaths(next: Manifest, count: nat, kept: set<Path>): set<Path>
      requires count <= |next.files|
    {
      Paths(next.files[..count]) - kept
    }

    ghost predicate Swapping(previous: Manifest, next: Manifest, count: nat, kept: set<Path>, before: Tree,
                             current: Journal)
      reads this
    {
      && count <= |next.files| && Journaled(current) && partials == map[]
      && current.gameId == next.gameId && current.newBuildId == next.buildId
      && var swapped, obsolete := SwappedPaths(next, count, kept), Obsolete(previous.files, next.files);
      && Elements(current.committed) == swapped
      && Restore(root, backup, swapped) == before
      && obsolete * before.Keys <= backup.Keys <= obsolete + swapped
      && backup.Keys * root.Keys <= swapped
      && Changed(codec, cache, next.files, root, swapped)
      && Changed(codec, cache, next.files, staging, Paths(next.files) - kept - swapped)
    }

    /** One pass of the swap loop: a kept file is skipped, any other is replaced and journaled. */
    method SwapFile(previous: Manifest, next: Manifest, i: nat, kept: set<Path>, ghost before: Tree, current: Journal)
      returns (later: Journal, outcome: Outcome)
      requires i < |next.files| && DistinctPaths(next.files) && Swapping(previous, next, i, kept, before, current)
      modifies this`root, this`staging, this`backup, this`journal, this`disturbed
      ensures journal.Some?
      ensures outcome == Finished ==> Swapping(previous, next, i + 1, kept, before, later)
      ensures outcome != Finished ==> outcome.Stopped?
      ensures outcome == Stopped(false) ==> AfterRecovery() == before
      ensures outcome == Stopped(true) ==> AtMostOneExtra(before, next.files[i])
      ensures old(disturbed) ==> disturbed
      ensures outcome != Finished ==> disturbed
    {
      hide Restore, Rebuild;
      var file := next.files[i];
      PathsGrow(next.files, i);
      if file.path in kept {
        assert SwappedPaths(next, i + 1, kept) == SwappedPaths(next, i, kept);
        return current, Finished;
      }
      assert SwappedPaths(next, i + 1, kept) == SwappedPaths(next, i, kept) + {file.path};
      ghost var committed := Elements(current.committed);
      assert file.path !in backup && file.path in staging;
      var fate := ReplaceFromStaging(file.path, committed);
      if fate != Proceed {
        Abandon(fate, current);
        return current, Stopped(false);
      }
      ChangedMoves(codec, cache, next.files, old(root), old(staging), committed, Paths(next.files) - kept - committed,
                   file);
      later, outcome := JournalReplaced(before, file, current);
    }

    /** Free space an update asks for: the new files, and the backups of the old ones. */
    static function RequiredBytes(previous: Manifest, next: Manifest): nat
      requires DistinctPaths(previous.files) && DistinctPaths(next.files)
    {
      DifferingBytes(next.files, ByPath(previous.files)) + DifferingBytes(previous.files, ByPath(next.files))
    }

    static lemma RequiredBytesMeans(previous: Manifest, next: Manifest)
      requires DistinctPaths(previous.files) && DistinctPaths(next.files)
      ensures RequiredBytes(previous, next) == UpdateNeeds(previous.files, next.files)
    {
      hide Sum, SizesAt, DifferingBytes, DistinctPaths, NewPaths, ByPath;
      DifferingBytesMeans(next.files, previous.files);
      DifferingBytesMeans(previous.files, next.files);
    }

    /** The swap phase, once everything is staged and the obsolete files are away. */
    method SwapAll(previous: Manifest, next: Manifest, kept: set<Path>, ghost before: Tree, start: Journal)
      returns (current: Journal, outcome: Outcome)
      requires DistinctPaths(previous.files) && DistinctPaths(next.files)
      requires Swapping(previous, next, 0, kept, before, start)
      requires kept == ReusedPaths(codec, previous.files, before, next.files)
      modifies this`root, this`staging, this`backup, this`journal, this`disturbed
      ensures journal.Some?
      ensures outcome == Finished ==>
                && Journaled(current) && current.gameId == next.gameId && current.newBuildId == next.buildId
                && Restore(root, backup, Elements(current.committed)) == before
                && Updates(codec, cache, previous.files, next.files, before, root)
      ensures outcome != Finished ==>
                && outcome.Stopped? && RolledBack(codec, cache, next.files, before, AfterRecovery())
                && (outcome == Stopped(false) ==> AfterRecovery() == before)
      ensures old(disturbed) ==> disturbed
      ensures outcome != Finished ==> disturbed
    {
      current, outcome := start, Finished;
      for i := 0 to |next.files|
        invariant outcome == Finished && Swapping(previous, next, i, kept, before, current)
        invariant old(disturbed) ==> disturbed
      {
        current, outcome := SwapFile(previous, next, i, kept, before, current);
        if outcome != Finished {
          return;
        }
      }
      assert next.files[..|next.files|] == next.files;
      AllSwapped(codec, cache, previous.files, next.files, before, root, backup, Elements(current.committed));
    }

    /** Staging and removal: everything before the first file of the next build is placed. */
    method PrepareUpdate(previous: Manifest, next: Manifest, start: Journal)
      returns (fate: Fate, current: Journal, kept: set<Path>, summary: UpdateSummary)
      requires DistinctPaths(previous.files) && DistinctPaths(next.files)
      requires start == Journal(next.gameId, next.buildId, Started, [], []) && Journaled(start)
      requires backup == map[] && staging == map[] && partials == map[]
      modifies this`root, this`staging, this`partials, this`backup, this`disturbed
      ensures current.(removed := start.removed) == start
      ensures Restore(root, backup, {}) == old(root)
      ensures fate == Proceed ==>
                && kept == ReusedPaths(codec, previous.files, old(root), next.files) && partials == map[]
                && Swapping(previous, next, 0, kept, old(root), current)
                && Summarizes(previous, next, old(root), summary)
      ensures old(disturbed) ==> disturbed
      ensures fate != Proceed && Rebuildable(codec, cache, next.files) ==> disturbed
    {
      hide Rebuildable, Reuses, ReusedBytes, ReusedPaths, SizeTotal, Obsolete, Changed, Restore, Paths, DistinctPaths;
      NothingChanged(codec, cache, next.files, root);
      var reused, reconstructed, changed;
      current := start;
      fate, kept, reused, reconstructed, changed := Stage(previous, next);
      var added, removed := |Paths(next.files) - Paths(previous.files)|, |Obsolete(previous.files, next.files)|;
      summary := UpdateSummary(reused, reconstructed, added, changed, removed);
      if fate == Proceed {
        fate, current := RemoveObsolete(previous, next, start);
        NothingChanged(codec, cache, next.files, root);
      }
      assert SwappedPaths(next, 0, kept) == {};
      assert Paths(next.files) - kept - {} == Paths(next.files) - kept;
    }

    /** What the numbers of an update report mean. */
    ghost predicate Summarizes(previous: Manifest, next: Manifest, before: Tree, summary: UpdateSummary)
      requires DistinctPaths(previous.files)
    {
      && summary.reusedInstalledBytes == ReusedBytes(codec, previous.files, before, next.files)
      && summary.reusedInstalledBytes + summary.reconstructedBytes == SizeTotal(next.files)
      && summary.changedFiles + |ReusedPaths(codec, previous.files, before, next.files)| == |next.files|
      && summary.addedFiles == |Paths(next.files) - Paths(previous.files)|
      && summary.removedFiles == |Obsolete(previous.files, next.files)|
    }

    /** Stage, remove and swap: everything an update does before it commits. */
    method ReplaceFiles(previous: Manifest, next: Manifest, start: Journal)
      returns (outcome: Outcome, current: Journal, summary: UpdateSummary)
      requires DistinctPaths(previous.files) && DistinctPaths(next.files)
      requires start == Journal(next.gameId, next.buildId, Started, [], []) && Journaled(start)
      requires backup == map[] && staging == map[] && partials == map[]
      modifies this`root, this`staging, this`partials, this`backup, this`journal, this`disturbed
      ensures journal.Some?
      ensures outcome == Finished ==>
                && Journaled(current) && current.gameId == next.gameId && current.newBuildId == next.buildId
                && Restore(root, backup, Elements(current.committed)) == old(root) && partials == map[]
                && Updates(codec, cache, previous.files, next.files, old(root), root)
                && Summarizes(previous, next, old(root), summary)
      ensures outcome != Finished ==>
                && outcome.Stopped? && RolledBack(codec, cache, next.files, old(root), AfterRecovery())
                && (outcome == Stopped(false) ==> AfterRecovery() == old(root))
      ensures old(disturbed) ==> disturbed
      ensures outcome != Finished && Rebuildable(codec, cache, next.files) ==> disturbed
    {
      hide Updates, RolledBack, Installation.Summarizes, Installation.Swapping, ReusedPaths, Restore, Paths;
      NothingLost(codec, cache, next.files, root);
      var fate, kept;
      fate, current, kept, summary := PrepareUpdate(previous, next, start);
      if fate != Proceed {
        Abandon(fate, current);
        assert Elements(journal.value.committed) == {} && AfterRecovery() == old(root);
        outcome := Stopped(false);
        return;
      }
      current, outcome := SwapAll(previous, next, kept, old(root), current);
    }

    /** Everything an update does once its first journal is written. */
    method UpdateFiles(previous: Manifest, next: Manifest, start: Journal)
      returns (outcome: Outcome, summary: UpdateSummary)
      requires DistinctPaths(previous.files) && DistinctPaths(next.files)
      requires start == Journal(next.gameId, next.buildId, Started, [], []) && Journaled(start)
      requires backup == map[] && staging == map[] && partials == map[]
      modifies this
      ensures Records(next.gameId, next.buildId) ==>
                && database == old(database)[next.gameId := InstalledGame(next.buildId, location)]
                && AfterRecovery() == root && Updates(codec, cache, previous.files, next.files, old(root), root)
      ensures !Records(next.gameId, next.buildId) ==>
                && database == old(database)
                && RolledBack(codec, cache, next.files, old(root), AfterRecovery())
                && (outcome != Stopped(true) ==> AfterRecovery() == old(root))
      ensures journal.None? ==> backup == map[]
      ensures outcome == Finished ==>
                Records(next.gameId, next.buildId) && Idle() && Summarizes(previous, next, old(root), summary)
      ensures outcome != Rejected
      ensures outcome != Finished && Rebuildable(codec, cache, next.files) ==> disturbed
    {
      hide Updates, RolledBack, Installation.Summarizes, Restore;
      NothingLost(codec, cache, next.files, root);
      var current;
      outcome, current, summary := ReplaceFiles(previous, next, start);
      if outcome != Finished {
        return;
      }
      outcome := Stopped(false);
      var finished := Commit(current);
      if finished {
        var fate := Chance();
        if fate == Proceed {
          staging := map[];
          outcome := Finished;
        } else {
          Abandon(fate, current);
        }
      }
    }

    /**
     * Wherever it stops, a complete recovery ends with the updated tree when the database records the next
     * build, and otherwise with the old tree and at most the one file that was placed but not yet journaled.
     */
    method Update(previous: Manifest, next: Manifest, available: Option<nat>)
      returns (outcome: Outcome, summary: UpdateSummary)
      requires Idle() && !Records(next.gameId, next.buildId)
      modifies this
      ensures Records(next.gameId, next.buildId) ==>
                && DistinctPaths(previous.files)
                && database == old(database)[next.gameId := InstalledGame(next.buildId, location)]
                && AfterRecovery() == root && Updates(codec, cache, previous.files, next.files, old(root), root)
      ensures !Records(next.gameId, next.buildId) ==>
                && database == old(database)
                && RolledBack(codec, cache, next.files, old(root), AfterRecovery())
                && (outcome != Stopped(true) ==> AfterRecovery() == old(root))
      ensures journal.None? ==> backup == map[]
      ensures outcome == Finished ==>
                Records(next.gameId, next.buildId) && Idle() && Summarizes(previous, next, old(root), summary)
      ensures outcome == Rejected ==> root == old(root) && database == old(database) && Idle()
      ensures !ValidFiles(previous.files) || !ValidFiles(next.files) || previous.gameId != next.gameId ==>
                outcome == Rejected
      ensures ValidFiles(previous.files) && ValidFiles(next.files) && previous.gameId == next.gameId ==>
                var tooLittle := TooLittle(available, UpdateNeeds(previous.files, next.files));
                && (tooLittle ==> outcome == Rejected && disturbed == old(disturbed))
                && (outcome == Rejected && !disturbed ==> tooLittle)
      ensures outcome.Stopped? && Rebuildable(codec, cache, next.files) ==> disturbed
    {
      hide Updates, RolledBack, Installation.Summarizes, Rebuildable, InstallNeeds, UpdateNeeds, SizesAt, Sum, NewPaths;
      hide ReusedPaths, Restore, Reuses;
      NothingLost(codec, cache, next.files, root);
      summary := UpdateSummary(0, 0, 0, 0, 0);
      var validPrevious := Validate(previous.files);
      var validNext := Validate(next.files);
      if validPrevious.Err? || validNext.Err? || previous.gameId != next.gameId {
        return Rejected, summary;
      }
      RequiredBytesMeans(previous, next);
      var enough := EnsureCapacity(available, RequiredBytes(previous, next));
      if !enough {
        return Rejected, summary;
      }
      var start := Journal(next.gameId, next.buildId, Started, [], []);
      var fate := WriteJournal(start);
      if fate != Proceed {
        return (if fate == Throw then Rejected else Stopped(false)), summary;
      }
      outcome, summary := UpdateFiles(previous, next, start);
    }

    // ---- Recovery.

    /** The loop that deletes the journaled files; stopping in it loses nothing. */
    method DeleteCommitted(committed: seq<Path>) returns (fate: Fate)
      modifies this`root, this`disturbed
      ensures fate == Proceed ==> root == old(root) - Elements(committed)
      ensures Restore(root, backup, Elements(committed)) == old(Restore(root, backup, Elements(committed)))
      ensures old(disturbed) ==> disturbed
      ensures fate != Proceed ==> disturbed
    {
      ghost var all := Elements(committed);
      for i := 0 to |committed|
        invariant root == old(root) - Elements(committed[..i]) && disturbed == old(disturbed)
        invariant Restore(root, backup, all) == old(Restore(root, backup, all))
      {
        assert Elements(committed[..i + 1]) == Elements(committed[..i]) + {committed[i]};
        fate := Chance();
        if fate != Proceed {
          return;
        }
        DeletingIsRepeatable(root, backup, all, {committed[i]});
        root := root - {committed[i]};
      }
      assert committed[..|committed|] == committed;
      fate := Proceed;
    }

    /** The backups in `moved` were brought home over the tree `emptied`, the others still wait. */
    ghost predicate MovedHome(emptied: Tree, backups: Tree, moved: set<Path>)
      reads this`root, this`backup
    {
      moved <= backups.Keys && root == Homeward(emptied, backups, moved) && backup == Waiting(backups, moved)
    }

    /** The loop that moves the backups home, in any order. */
    method MoveBackupsHome() returns (fate: Fate, ghost moved: set<Path>)
      modifies this`root, this`backup, this`disturbed
      ensures MovedHome(old(root), old(backup), moved)
      ensures fate == Proceed ==> root == old(root) + old(backup) && backup == map[]
      ensures old(disturbed) ==> disturbed
      ensures fate != Proceed ==> disturbed
    {
      hide Homeward, Waiting;
      moved := {};
      NothingMoved(root, backup);
      while backup != map[]
        invariant MovedHome(old(root), old(backup), moved) && disturbed == old(disturbed)
        decreases |backup|
      {
        fate := Chance();
        if fate != Proceed {
          return;
        }
        var path :| path in backup;
        OneMoreHome(old(root), old(backup), moved, path);
        OneFewer(backup, path);
        root := root[path := backup[path]];
        backup := backup - {path};
        moved := moved + {path};
      }
      EverythingMoved(old(root), old(backup), moved);
      fate := Proceed;
    }

    /** Delete the journaled files, then bring the backups home; only the first half may be run again. */
    method RestoreTransaction(committed: seq<Path>) returns (outcome: RecoveryOutcome, ghost moved: set<Path>)
      modifies this`root, this`backup, this`disturbed
      ensures outcome == Recovered ==>
                root == old(Restore(root, backup, Elements(committed))) && backup == map[] && moved == old(backup).Keys
      ensures outcome == StoppedEarly ==>
                backup == old(backup) &&
                    Restore(root, backup, Elements(committed)) == old(Restore(root, backup, Elements(committed)))
      ensures outcome != StoppedEarly ==> MovedHome(old(root) - Elements(committed), old(backup), moved)
      ensures old(disturbed) ==> disturbed
      ensures outcome != Recovered ==> disturbed
    {
      moved := {};
      var fate := DeleteCommitted(committed);
      if fate != Proceed {
        return StoppedEarly, {};
      }
      fate, moved := MoveBackupsHome();
      outcome := if fate == Proceed then Recovered else StoppedMovingBackups;
      if fate == Proceed {
        EverythingMoved(old(root) - Elements(committed), old(backup), moved);
      }
    }

    /**
     * Recovery at the next start. A complete one reaches the tree announced by AfterRecovery; one that stops
     * before it moves backups leaves that tree reachable; what a later stop leaves is said by MovedHome.
     */
    method Recover() returns (outcome: RecoveryOutcome, ghost moved: set<Path>)
      modifies this
      ensures database == old(database)
      ensures outcome == Recovered ==>
                && root == old(AfterRecovery()) && journal == None && partials == map[] && staging == map[]
                && backup == (if old(journal).Some? then map[] else old(backup))
      ensures outcome == StoppedEarly ==>
                && AfterRecovery() == old(AfterRecovery())
                && (journal == old(journal) || (journal == None && backup == map[]))
                && (old(journal).None? ==> backup == old(backup))
      ensures outcome == StoppedMovingBackups ==>
                && journal == old(journal) && journal.Some?
                && MovedHome(old(root) - Elements(journal.value.committed), old(backup), moved)
      ensures old(disturbed) ==> disturbed
      ensures outcome != Recovered ==> disturbed
    {
      var fate: Fate;
      moved := {};
      if journal.Some? {
        var record := journal.value;
        var restoring := record.state != Committed && !Records(record.gameId, record.newBuildId);
        if restoring {
          outcome, moved := RestoreTransaction(record.committed);
          if outcome != Recovered {
            return;
          }
        }
        fate := CleanupTransaction();
        if fate != Proceed {
          outcome := if restoring then StoppedMovingBackups else StoppedEarly;
          return;
        }
      }
      outcome := StoppedEarly;
      fate := Chance();
      if fate != Proceed {
        return;
      }
      partials := map[];
      fate := Chance();
      if fate != Proceed {
        return;
      }
      staging := map[];
      outcome := Recovered;
    }

    // ---- Whole sessions.

    /** Recovery tried again after every stop that allows it. */
    method RecoverRepeatedly(attempts: nat) returns (outcome: RecoveryOutcome)
      requires journal.None? ==> backup == map[]
      modifies this
      ensures database == old(database)
      ensures outcome == Recovered ==> root == old(AfterRecovery()) && Idle()
      ensures attempts > 0 && outcome != Recovered ==> disturbed
    {
      outcome := StoppedEarly;
      ghost var moved;
      for i := 0 to attempts
        invariant database == old(database) && (journal.None? ==> backup == map[])
        invariant outcome == StoppedEarly && AfterRecovery() == old(AfterRecovery()) && (i > 0 ==> disturbed)
      {
        outcome, moved := Recover();
        if outcome != StoppedEarly {
          return;
        }
      }
    }

    /** An install that may stop anywhere, then recovery until it completes. */
    method InstallThenRecover(manifest: Manifest, available: Option<nat>, attempts: nat) returns (recovered: bool)
      requires Idle() && !Records(manifest.gameId, manifest.buildId)
      modifies this
      ensures recovered ==> Idle()
      ensures recovered && Records(manifest.gameId, manifest.buildId) ==>
                Installs(codec, cache, manifest.files, old(root), root)
      ensures recovered && !Records(manifest.gameId, manifest.buildId) ==>
                database == old(database) && RolledBack(codec, cache, manifest.files, old(root), root)
    {
      var _ := Install(manifest, available);
      var outcome := RecoverRepeatedly(attempts);
      recovered := outcome == Recovered;
    }

    /** An update that may stop anywhere, then recovery until it completes. */
    method UpdateThenRecover(previous: Manifest, next: Manifest, available: Option<nat>, attempts: nat)
      returns (recovered: bool)
      requires Idle() && !Records(next.gameId, next.buildId)
      modifies this
      ensures recovered ==> Idle()
      ensures recovered && Records(next.gameId, next.buildId) ==>
                DistinctPaths(previous.files) && Updates(codec, cache, previous.files, next.files, old(root), root)
      ensures recovered && !Records(next.gameId, next.buildId) ==>
                database == old(database) && RolledBack(codec, cache, next.files, old(root), root)
    {
      var _, _ := Update(previous, next, available);
      var outcome := RecoverRepeatedly(attempts);
      recovered := outcome == Recovered;
    }

    // ---- Verification and repair.

    method Verify(manifest: Manifest) returns (invalid: seq<Path>)
      ensures invalid == Invalid(codec, manifest.files, root)
    {
      var files := manifest.files;
      invalid := [];
      assert files[0..] == files;
      for i := 0 to |files|
        invariant invalid + Invalid(codec, files[i..], root) == Invalid(codec, files, root)
      {
        assert files[i..][1..] == files[i + 1..];
        if !Verifies(codec, root, files[i].path, files[i].size, files[i].blake3) {
          invalid := invalid + [files[i].path];
        }
      }
    }

    static function PartialName(path: Path, transaction: string): string {
      path + ".launcher-" + transaction + ".part"
    }

    /**
     * Rebuilds exactly the files that fail verification; a repair that completes leaves none that does. Partial files
     * of earlier crashes are not in its way and stay; a crash in it leaves at most one more.
     */
    method Repair(manifest: Manifest, transaction: string) returns (finished: bool)
      requires DistinctPaths(manifest.files)
      requires forall f | f in manifest.files :: PartialName(f.path, transaction) !in partials
      modifies this`root, this`partials, this`disturbed
      ensures finished ==> HealthyExcept(codec, manifest.files, [], root) && partials == old(partials)
      ensures root.Keys <= old(root).Keys + Paths(manifest.files)
      ensures forall p | p in old(root) && p !in Invalid(codec, manifest.files, old(root)) ::
                p in root && root[p] == old(root)[p]
      ensures partials == old(partials) ||
              exists f | f in manifest.files :: partials - {PartialName(f.path, transaction)} == old(partials)
      ensures old(disturbed) ==> disturbed
      ensures !finished && Rebuildable(codec, cache, manifest.files) ==> disturbed
    {
      var files := manifest.files;
      var invalid := Verify(manifest);
      InvalidPaths(codec, files, root);
      assert invalid[0..] == invalid;
      for i := 0 to |invalid|
        invariant partials == old(partials) && root.Keys <= old(root).Keys + Paths(files) && disturbed == old(disturbed)
        invariant forall p | p in old(root) && p !in invalid :: p in root && root[p] == old(root)[p]
        invariant HealthyExcept(codec, files, invalid[i..], root)
      {
        assert invalid[i] in invalid;
        var file := ByPath(files)[invalid[i]];
        HealthyGrows(codec, cache, files, invalid[i..], root, file);
        assert invalid[i..][1..] == invalid[i + 1..];
        var fate := RepairFile(file, PartialName(file.path, transaction));
        if fate != Proceed {
          assert partials == old(partials) || partials - {PartialName(file.path, transaction)} == old(partials);
          return false;
        }
      }
      return true;
    }

    /** Rebuilds one file under a new name and moves it into place; only a crash leaves the partial file behind. */
    method RepairFile(file: FileRecipe, name: string) returns (fate: Fate)
      requires name !in partials
      modifies this`root, this`partials, this`disturbed
      ensures disturbed == (old(disturbed) || (fate != Proceed && Rebuild(codec, cache, file).Some?))
      ensures fate == Proceed ==>
                Rebuild(codec, cache, file).Some? && root == old(root)[file.path := Rebuild(codec, cache, file).value]
      ensures fate != Proceed ==> root == old(root)
      ensures partials - {name} == old(partials) && (fate != Crash ==> partials == old(partials))
    {
      fate := WritePartial(file, name);
      if fate == Proceed {
        fate := PlacePartial(name, file.path);
      }
      if fate != Crash {
        partials := partials - {name};
      }
      assert old(partials) - {name} == old(partials);
    }
  }
}
