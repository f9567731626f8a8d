# Verified models of the launcher, packager and scraper

A Dafny model of the parts of the game distribution system whose correctness depends on whole runs: the transactional
installer and its recovery, packaging and reconstruction, the physical pack format, the resumable chunk downloader and
its byte accounts, the bounded cache and scratch budget, the leased job store, the page planner, the coalescing category
writer, the flood fill that removes icon backplates, and the VDF, quoted-printable and version parsers.

Run `dafny verify dfyconfig.toml` to check everything.

## How the model is laid out

- `Common`, `MapSums`, `Sorting`, `Ordinal`: shared values, sums over maps, a stable sort with its correctness, ordinal
  string comparison.
- `Manifests`, `Reconstruction`: recipes, their validation, and rebuilding a file from cached chunks.
- `Transactions`, `Installer`: what a rollback means on trees of files, and the class whose methods install, update,
  recover, verify and repair. Every step that touches the disk or the database may succeed, throw or be cut off by the
  death of the process; the choice is free at each step, so a contract speaks about a stop anywhere. A ghost field records
  whether anything went wrong, so that a contract can also say that an operation ends early only for a reason.
- `Packager`: chunking, encoding, storing each frame once, and recipes, over an output directory.
- `Encodings`, `PackFormat`, `PackWriter`: the strict reader and a reference writer of the layout it reads.
- `ChunkDownload`, `DownloadAccounting`, `PackDownload`, `DownloadRun`: one valid chunk from many locations, the counters of a
  download whose work finishes in any order, materializing missing chunks from whole packs, and a whole download on the
  cache it fills, alone in it or among other users.
- `Eviction`, `ChunkCache`, `CacheRoom`, `CacheInterleavings`, `CounterInterleavings`: an eviction pass as a relation, the
  cache class, when there is room for all chunks wanted, and calls whose steps interleave.
- `ArtifactDownload`, `ScratchBudget`: a download as a function of disk, answers and budget; the shared budget, its live
  reservations, and the download that spends from it.
- `JobTable`, `JobStore`: the job table as a value with its events, and the store and worker classes that perform them.
- `Planner`: the bounded exploration loop against an arbitrary session, interpreter, adapter and clock.
- `CategoryProtocol`, `CategoryWriter`: the lock, slot and worker protocol as a state machine, and the two methods.
- `FloodFill`, `Vdf`, `QuotedPrintable`, `Versions`: the remaining algorithms.

Digests, the codec, the chunker, case folding, `int.TryParse`, the network, browsers, clocks and the scheduler of threads
are parameters. What is needed of them is stated where it is used: frames of one build do not collide, a decoded frame is
the piece that was encoded, a chunker loses nothing and cuts no empty piece.

## Findings

Statements that hold only under a condition are proved with that condition, in both directions, and each failing side has
a concrete instance.

- A recovery stopped while it moves backups home and then run again is safe exactly when none of the backups already home
  is a journaled path (`Transactions.RestartAfterMoves`); a replaced file is lost otherwise (`Transactions.RestartExample`).
- After an update every file has its digest, but verification complains about a file exactly when it was reused under a
  recipe of another size, because reuse is decided with the old recipe's size (`Transactions.VerificationAfterUpdate`);
  `Transactions.KeptUnderAnotherSize` gives two valid manifests with which that happens.
- The fill misses border pixels exactly on an image of one row whose last pixel is dark beside one that is not
  (`FloodFill.SeedsSuffice`, `FloodFill.MissedPixel`).
- A partial response that does not name the offset asked for, because it is for another one or names none, is written as
  if it were the beginning of the chunk (`ChunkDownload.WrongRangeIff`). Such an answer is harmless for every chunk whose
  bytes it sends exactly when it starts at the beginning or nothing of it is taken (`ChunkDownload.WrongStartIff`);
  `ChunkDownload.WrongRangeExample` and `ChunkDownload.UnnamedRangeExample` are instances.
- From an honest server, a failed attempt that does not condemn the partial file keeps all of it exactly when it was no
  416 and a body sent from the beginning had already brought as much again (`ChunkDownload.KeepsPartialIff`). Locations
  that always continue a true beginning lose nothing, and a byte from each answer is progress enough
  (`ChunkDownload.Downloader.DownloadChunkWithRetry`).
- A reservation of an artifact of unknown size stops covering the bytes on disk exactly when those bytes cannot be
  reserved, or when an answer starts over and announces a length that is refused, which gives the reservation up before
  the file is truncated (`ScratchBudget.Download.DownloadOnce`); `ArtifactDownload.LeftoverIsUnaffordable` and
  `ArtifactDownload.RestartIsRefused` are instances, run by `ScratchBudget.UncoveredFromStart` and
  `ScratchBudget.UncoveredAfterRestart`. In the first case the file blocks every later attempt, whatever
  servers answer (`ArtifactDownload.StaleFileBlocks`).
- A chunk that a pack brought is not asked for again, so its task fails for want of a location when it has left the cache
  by then. With a resolver that answers exactly what it is asked, no task fails that way if and only if every chunk nobody
  asked for is in the cache when its task looks (`DownloadRun.NoLocationIff`). It never happens to a download that has the
  cache to itself and room for all its chunks beside the pinned ones; it always happens when nothing is pinned and packs
  bring more than the cache holds (`DownloadRun.Download`, and `DownloadRun.CacheTooSmall` for an instance).
- Bytes written and reused make up the total of a successful download exactly when no exception ended the phase of packs
  after they had brought something; what they had brought then is in no count of bytes (`DownloadRun.Download`,
  `DownloadRun.ExceptionAfterOne`).
- Disposing one of two leases on the same chunk unpins it for both (`ChunkCache.PinLease.Dispose`,
  `ChunkCache.DisposeOneOfTwo`).
- A delete deletes its file and then, in a step of its own, its index entry. A put of the same chunk in between leaves the
  chunk rightly indexed exactly when the call that is first at the file is first at the index, too
  (`CacheInterleavings.DeleteMeetsPutIff`); otherwise a stored file may be left without an entry
  (`CacheInterleavings.UnindexedFile`).
- Rebuilding the index clears it and then adds the length of each file without subtracting an entry that is there already.
  The byte counter stays the sum of the indexed sizes exactly when no scan since the last clearing finds bytes indexed
  under its name (`CounterInterleavings.CounterIsSumIff`); a chunk stored in between is counted twice
  (`CounterInterleavings.CountedTwice`).
- A failure of the category save that is not caught strands a state exactly when one is waiting; it stays stranded until
  the next one is queued, which is saved in its place (`CategoryProtocol.FaultStrandsIff`, `CategoryProtocol.StaysStranded`,
  `CategoryProtocol.NextQueueRecovers`, and over runs `CategoryProtocol.EveryInterleaving`).
- A finished job changes its status exactly when it is done or failed and some event cancels it
  (`JobTable.FinishedStatusIff`, `JobTable.DoneBecomesCancelled`); finished jobs never become active again.
- A heartbeat by a worker that lost its lease does no harm exactly while the job is unfinished and not claimed again
  (`JobTable.HeartbeatIsSafeIff`, `JobTable.LateHeartbeat`).
- A cancellation reads its row and writes it back under two locks. All rules hold again after the write, but the cancelled
  row forgets the claims made in between (`JobTable.CancelAcrossRun`, `JobTable.CancelForgetsAClaim`).

## Model

| member | source | states |
|---|---|---|
| Ordinal.CompareMeans | launcher/src/Launcher.Downloads/PhysicalPackReader.cs:109-109 | One string comes before another if and only if it is a proper prefix of it or has the smaller character at the first difference; so an index, a recipe list and pre-release text run upwards. |
| Sorting.SortCorrect | launcher/src/Launcher.Downloads/PhysicalPackReader.cs:114-114 | Sorting rearranges and orders. |
| Sorting.SortKeepsTies | launcher/src/Launcher.Downloads/PhysicalPackReader.cs:114-114 | Elements the order does not tell apart keep their order. |
| Transactions.TakingIsUndone | launcher/src/Launcher.Installation/Installer.cs:395-403 | Moving a file that is not journaled into the backup leaves the outcome of a rollback unchanged. |
| Transactions.PlacingIsUndone | launcher/src/Launcher.Installation/Installer.cs:47-54 | Placing a new file is undone once journaled; before that a rollback ends with one extra file exactly if no old file was backed up there. |
| Transactions.DeletingIsRepeatable | launcher/src/Launcher.Installation/Installer.cs:407-411 | Recovery may stop in its delete loop and start over. |
| Transactions.RestartAfterMoves | launcher/src/Launcher.Installation/Installer.cs:405-421 | A rollback interrupted while moving backups and run again reaches the same tree if and only if no backup already home is a journaled path. |
| Transactions.RestartExample | launcher/src/Launcher.Installation/Installer.cs:405-421 | Rolling back a replaced file twice deletes it. |
| Transactions.AllPlaced | launcher/src/Launcher.Installation/Installer.cs:34-55 | A transaction that would roll back to the old tree and has journaled every file has installed the build over that tree and touched nothing else. |
| Transactions.AllSwapped | launcher/src/Launcher.Installation/Installer.cs:160-181 | Likewise an update leaves the old tree minus the files only the previous build owned, with every file of the next build in place and all others as they were. |
| Transactions.InvalidMeaning | launcher/src/Launcher.Installation/Installer.cs:205-214 | A path is reported by verification if and only if a recipe at that path fails to verify. |
| Transactions.InstalledVerifies | launcher/src/Launcher.Installation/Installer.cs:200-215 | A build whose files are all in place passes its own verification. |
| Transactions.VerificationAfterUpdate | launcher/src/Launcher.Installation/Installer.cs:137-141 | After an update every file of the next build has its digest, and verification reports a path if and only if its file was reused under a recipe of another size. |
| Transactions.KeptUnderAnotherSize | launcher/src/Launcher.Installation/Installer.cs:137-141 | Two valid manifests and a tree with which a complete update leaves a file that verification reports. |
| Transactions.ReusesMeans | launcher/src/Launcher.Installation/Installer.cs:137-137 | A file is reused if and only if the previous build has a recipe for its path with the same digest and what is at that path has that recipe's size and digest; so one with the same recipe in both, intact on disk, is kept. |
| Transactions.DifferingBytesMeans | launcher/src/Launcher.Installation/Installer.cs:84-88 | One side of what an update asks for is the sum, path by path, of the sizes of the files that the other manifest lacks or holds with another digest. |
| Transactions.SizeTotalMeans | launcher/src/Launcher.Installation/Installer.cs:381-386 | What an installation asks for is the sum of the sizes of its files, path by path. |
| Transactions.ReusedBytesMeans | launcher/src/Launcher.Installation/Installer.cs:137-141 | The bytes an update reports as reused are the sizes of exactly the files reused. |
| Installer.Installation.EnsureCapacity | launcher/src/Launcher.Installation/Installer.cs:376-391 | There is enough exactly when the bytes asked for are a signed 64-bit number and not more than the free space, where that is known. |
| Installer.Installation.BackupExisting | launcher/src/Launcher.Installation/Installer.cs:395-403 | Moves an existing file into the backup as one step, or changes nothing. |
| Installer.Installation.Commit | launcher/src/Launcher.Installation/Installer.cs:57-64 | The database records the build or is unchanged; if unchanged, the backup and the journaled paths still stand, and the journal never says committed. |
| Installer.Installation.InstallFile | launcher/src/Launcher.Installation/Installer.cs:36-54 | One pass keeps the rollback to the old tree; stopping in it leaves that tree reachable with at most this one file extra. |
| Installer.Installation.Install | launcher/src/Launcher.Installation/Installer.cs:21-72 | Rejected, with nothing touched, exactly for an invalid manifest or too little space for the sum of its files. Wherever else it stops: with the record written recovery keeps the complete verified build; without it recovery reaches the old tree with at most one placed, unjournaled file. It ends early only after a failed step or for a file that cannot be rebuilt. |
| Installer.Installation.Stage | launcher/src/Launcher.Installation/Installer.cs:129-157 | Every file of the next build is kept or staged, and reused plus reconstructed bytes are its total size. |
| Installer.Installation.RemoveObsolete | launcher/src/Launcher.Installation/Installer.cs:160-168 | Exactly the existing files that only the previous build owns move to the backup, and a rollback still reaches the old tree. |
| Installer.Installation.SwapFile | launcher/src/Launcher.Installation/Installer.cs:169-181 | One pass of the swap keeps the account of placed, waiting and backed-up files; stopping in it leaves at most one extra file. |
| Installer.Installation.Update | launcher/src/Launcher.Installation/Installer.cs:74-198 | Too little space for the new files and the backups of the old ones, invalid manifests, or another game: rejected, with nothing touched; and rejected for no other reason but a failed first write of the journal. Otherwise the same guarantee as for installs, with the exact resulting tree, and a summary whose byte and file counts are those of the two manifests. |
| Installer.Installation.RestoreTransaction | launcher/src/Launcher.Installation/Installer.cs:405-421 | A complete rollback reaches the restored tree; one stopped among the deletions leaves it reachable; later stops leave exactly the backups moved so far. |
| Installer.Installation.Recover | launcher/src/Launcher.Installation/Installer.cs:260-307 | A complete recovery reaches the announced tree and clears journal, backup, partial and staged files; it stops only after a failed step. |
| Installer.Installation.RecoverRepeatedly | launcher/src/Launcher.Installation/Installer.cs:260-307 | Recovery retried after every stop that allows it still reaches the tree announced before the first attempt. |
| Installer.Installation.InstallThenRecover | launcher/src/Launcher.Installation/Installer.cs:21-72 | A stopped install and a complete recovery give either the whole new build, recorded, or the old tree and database with at most one new file. |
| Installer.Installation.UpdateThenRecover | launcher/src/Launcher.Installation/Installer.cs:74-198 | The same for a stopped update. |
| Installer.Installation.Verify | launcher/src/Launcher.Installation/Installer.cs:200-215 | Reports exactly the paths whose files fail, in manifest order. |
| Installer.Installation.Repair | launcher/src/Launcher.Installation/Installer.cs:217-237 | A finished repair leaves no failing file; files that were healthy or foreign and partial files of earlier crashes are untouched, whether it finishes or not; a crash in it leaves at most one partial file. |
| Reconstruction.ReconstructFile | launcher/src/Launcher.Installation/Installer.cs:360-374 | The chunk loop yields exactly the verified reconstruction, or fails when any chunk, size or digest does not check. |
| Reconstruction.Rebuild | launcher/src/Launcher.Installation/Installer.cs:373-373 | Whatever is rebuilt has the recipe's size and digest. |
| Reconstruction.RebuildIff | launcher/src/Launcher.Installation/Installer.cs:360-374 | A file is rebuilt as some content if and only if that is the concatenation, in recipe order, of pieces decoded from cached frames with the right digests, each piece of its recorded size and digest, and the whole of its own. |
| Manifests.HashDigits | server/crates/common/src/lib.rs:263-275 | A hash is valid if and only if it is sixty-four lower-case hexadecimal digits. |
| Manifests.CheckedRawTotal | server/crates/common/src/lib.rs:169-177 | The checked sum has a value if and only if the total stays in the 64-bit range. |
| Manifests.ValidateChunks | server/crates/common/src/lib.rs:183-204 | One file's chunks are all valid and agree with every earlier chunk of the same hash, or a fault of one of these kinds exists. |
| Manifests.Validate | server/crates/common/src/lib.rs:158-205 | Accepts exactly the recipe lists with distinct paths, right sizes, hashes and keys, and no conflicting chunks. |
| Packager.Output.PackageChunk | server/crates/packager/src/lib.rs:200-225 | Stores a frame only if it is new, keeps unique plus reused equal to chunks and unique equal to the number of stored objects; its reference records both sizes and digests and the key. |
| Packager.Output.PackageFile | server/crates/packager/src/lib.rs:188-235 | The recipe is that of the file's pieces, with size and digest of the whole content; what its references must match is said by RecipesMatchObjects. |
| Packager.Output.PackageDirectory | server/crates/packager/src/lib.rs:150-275 | Succeeds exactly when there is a file and the sorted recipes are a valid manifest. For a sound codec every reference then names an object of exactly the encoded size it records, the counters add up references, file sizes and stored lengths, and warnings name exactly the files whose size changed. |
| Packager.AssemblesPieces | server/crates/packager/src/lib.rs:191-226 | Any stored pieces reassemble to their concatenation, deduplicated or not. |
| Packager.RebuildsOriginal | server/crates/packager/src/lib.rs:171-236 | Every packaged file is rebuilt from its recipe byte for byte. |
| Packager.RecipesAreValid | server/crates/packager/src/lib.rs:237-275 | The recipes of files at distinct paths pass every size, hash, key and duplicate-chunk check. |
| Packager.RecipesMatchObjects | server/crates/packager/src/lib.rs:200-226 | Every reference of the finished recipes names a stored object of the recorded length and digest, which decodes to bytes of the recorded raw size and digest, under the key made of its hash. |
| Packager.ObjectsAreNamed | server/crates/packager/src/lib.rs:200-226 | No object is stored that no recipe names. |
| Packager.CountsMatchRecipes | server/crates/packager/src/lib.rs:200-226 | The counters are the number of references, the sizes of all files, and for every reference, repeated ones included, the length of the object it names. |
| Packager.RecipesAscend | server/crates/packager/src/lib.rs:237-237 | Recipes come by strictly ascending path. |
| Packager.PackagedBuildInstalls | launcher/src/Launcher.Installation/Installer.cs:34-55 | Installing a packaged build from its own objects puts the original bytes of every file in place. |
| PackFormat.CheckFrame | launcher/src/Launcher.Downloads/PhysicalPackReader.cs:62-88 | Accepts exactly the files whose header, footer, lengths and index digest agree, all reads inside the array. |
| PackFormat.ParseEntries | launcher/src/Launcher.Downloads/PhysicalPackReader.cs:90-113 | Accepts exactly the indexes of bounded entries inside the data region whose hashes strictly ascend, and returns them. |
| PackFormat.CheckNeighbours | launcher/src/Launcher.Downloads/PhysicalPackReader.cs:114-117 | Compares each entry with its successor by offset only. |
| PackFormat.Parse | launcher/src/Launcher.Downloads/PhysicalPackReader.cs:44-125 | Succeeds if and only if the array meets the format and the expected identity, and returns exactly its entries. |
| PackFormat.NeighbourCheckSuffices | launcher/src/Launcher.Downloads/PhysicalPackReader.cs:114-117 | When neighbours are apart, every two entries are. |
| PackFormat.NeighbourCheckIsExact | launcher/src/Launcher.Downloads/PhysicalPackReader.cs:114-117 | With positive lengths the neighbour check passes if and only if no two ranges overlap. |
| PackFormat.AcceptedPack | launcher/src/Launcher.Downloads/PhysicalPackReader.cs:69-117 | In an accepted file all ranges are disjoint, inside the data region, sum to at most its size, every entry is found under its hash, and hashes ascend. |
| PackFormat.FrameIff | launcher/src/Launcher.Downloads/PhysicalPackReader.cs:62-88 | The frame is sound if and only if, in numbers: marks, version, lengths and offsets agree, index and footer are where they say, within the limits, and the index has its digest. |
| PackFormat.ReadEncodedIff | launcher/src/Launcher.Downloads/PhysicalPackReader.cs:127-136 | A read gives some bytes if and only if they are those of the entry with the hash asked for and have that hash as digest; not found means no entry has it. |
| PackFormat.ReadRawIff | launcher/src/Launcher.Downloads/PhysicalPackReader.cs:138-144 | A raw read gives some bytes if and only if that entry's frame has its digest, decodes to them, and they have the recorded size and digest. |
| PackFormat.FindFinds | launcher/src/Launcher.Downloads/PhysicalPackReader.cs:127-130 | A lookup finds an entry with that hash whenever there is one. |
| Encodings.LittleEndianRoundTrip | launcher/src/Launcher.Downloads/PhysicalPackReader.cs:146-148 | A number that fits its width is read back from its little-endian bytes. |
| Encodings.LastByteIsHighest | launcher/src/Launcher.Downloads/PhysicalPackReader.cs:146-148 | Each further byte is worth 256 times the one before. |
| Encodings.HexSpells | launcher/src/Launcher.Downloads/PhysicalPackReader.cs:150-150 | Each byte is spelled by two lower-case digits, the higher half first. |
| Encodings.HexIsHash | launcher/src/Launcher.Downloads/PhysicalPackReader.cs:150-152 | The hexadecimal form of a digest always passes hash validation. |
| Encodings.HexIsInjective | launcher/src/Launcher.Downloads/PhysicalPackReader.cs:150-150 | Equal hexadecimal forms mean equal digests. |
| PackWriter.Accepted | launcher/src/Launcher.Downloads/PhysicalPackReader.cs:60-125 | Everything the reference writer lays out is accepted, with and without the expected identity. |
| PackWriter.RoundTrip | launcher/src/Launcher.Downloads/PhysicalPackReader.cs:127-136 | Each written chunk is read back under its hash, for any list of chunks with distinct hashes within the limits. |
| PackWriter.RawRoundTrip | launcher/src/Launcher.Downloads/PhysicalPackReader.cs:138-144 | With a decoder that undoes the frames, the raw bytes are read back too. |
| ChunkDownload.AfterBodyFits | launcher/src/Launcher.Downloads/DownloadManager.cs:346-373 | No answer makes the partial file longer than the chunk. |
| ChunkDownload.PrefixStays | launcher/src/Launcher.Downloads/DownloadManager.cs:346-378 | True bytes for the requested offset keep the partial file a prefix of the chunk, however the transfer ends. |
| ChunkDownload.WrongRangeIff | launcher/src/Launcher.Downloads/DownloadManager.cs:346-355 | An answer that does not name the requested offset leaves a prefix if and only if nothing is taken or its bytes equal the chunk's first bytes, wherever they come from. |
| ChunkDownload.WrongStartIff | launcher/src/Launcher.Downloads/DownloadManager.cs:346-373 | An answer that does not name the offset leaves a prefix of every chunk whose bytes it sends if and only if it starts at zero or nothing of it is taken. |
| ChunkDownload.WrongRangeExample | launcher/src/Launcher.Downloads/DownloadManager.cs:346-355 | A concrete answer of true bytes from another offset that leaves something else than a prefix. |
| ChunkDownload.UnnamedRangeExample | launcher/src/Launcher.Downloads/DownloadManager.cs:346-355 | The right bytes at the right offset, without a Content-Range, are written as the beginning. |
| ChunkDownload.FullAnswerCompletes | launcher/src/Launcher.Downloads/DownloadManager.cs:346-378 | An answer with all that is missing gives the chunk if and only if the partial file was a true beginning. |
| ChunkDownload.BodyTurnsOut | launcher/src/Launcher.Downloads/DownloadManager.cs:346-378 | A body is added to what is on disk only in a partial answer that names the offset asked for; it succeeds if and only if it is exactly the missing bytes, uninterrupted, with the chunk's digest, and counts those; an interruption of a fitting body is told apart from a body that does not fit, and what is left is exact. |
| ChunkDownload.ContinuedOrComplete | launcher/src/Launcher.Downloads/DownloadManager.cs:288-294 | An answer that continues a true beginning and breaks off leaves that beginning and exactly the bytes that came. |
| ChunkDownload.KeepsPartialIff | launcher/src/Launcher.Downloads/DownloadManager.cs:315-373 | From an honest server, a failure that does not condemn the partial file leaves all of it if and only if it was no 416 and a body sent from the beginning had already brought as much. |
| ChunkDownload.Downloader.Receive | launcher/src/Launcher.Downloads/DownloadManager.cs:346-378 | The answer turns out as BodyTurnsOut says, with the number of body bytes for a success and the exact remainder on disk for a failure. |
| ChunkDownload.Downloader.DownloadOneUrl | launcher/src/Launcher.Downloads/DownloadManager.cs:305-378 | No request is made exactly if the complete chunk is on disk already; otherwise one request continues what is on disk, unless that is as long as the chunk or longer, and the outcome, the failure and the bytes left are exactly those of the answer to that offset. |
| ChunkDownload.Downloader.TryEach | launcher/src/Launcher.Downloads/DownloadManager.cs:281-296 | One pass fails only after asking every location once, and not if servers are honest and one completes transfers. Over locations that never condemn a true beginning it loses no byte, and it gains one at every location that sends one; invalid data drops the partial file. |
| ChunkDownload.Downloader.Append | launcher/src/Launcher.Downloads/DownloadManager.cs:354-373 | The read loop appends exactly the whole reads that fit, and says whether one did not. |
| ChunkDownload.Downloader.DownloadChunkWithRetry | launcher/src/Launcher.Downloads/DownloadManager.cs:273-303 | Fails only after exactly four passes over both lists; the partial file then fits, even if it was oversized before; from honest servers it is always a prefix, and one completing location makes the first pass succeed. Locations that break off every time, but never before one byte, are enough for a chunk that misses fewer bytes than four passes make requests, in at most as many requests as bytes were missing. |
| ChunkDownload.OneByteAdvances | launcher/src/Launcher.Downloads/DownloadManager.cs:328-345 | A server that sends one byte and breaks is such a location, for every chunk. |
| DownloadAccounting.TotalIsOrderFree | launcher/src/Launcher.Downloads/DownloadManager.cs:152-204 | A counter's total does not depend on the order of the additions. |
| DownloadAccounting.TotalsOfTasks | launcher/src/Launcher.Downloads/DownloadManager.cs:152-190 | The additions of all chunks sum to the total bytes, the fetched bytes, one downloaded or reused chunk each, the sizes of the chunks that were in the cache as reused, and written plus reused plus pack bytes equal to the total. |
| DownloadAccounting.Counters.RunTasks | launcher/src/Launcher.Downloads/DownloadManager.cs:152-205 | For every interleaving, and whatever packs added before, a successful download reports prepared bytes equal to total bytes and downloaded plus reused equal to the unique chunks; written and reused bytes make up the total without the chunks found from packs. |
| DownloadAccounting.UniqueCovers | launcher/src/Launcher.Downloads/DownloadManager.cs:83-84 | The unique chunks have pairwise different hashes and cover exactly the hashes of the manifest. |
| PackDownload.OneMorePrepared | launcher/src/Launcher.Downloads/DownloadManager.cs:461-463 | Moving one hash from requested to prepared keeps the partition and the byte account. |
| PackDownload.PackDownloader.Materialize | launcher/src/Launcher.Downloads/DownloadManager.cs:451-464 | Marks a chunk prepared only with verified bytes in the cache; an exception names a chunk that was missing or wrong. |
| PackDownload.PackDownloader.DownloadPacks | launcher/src/Launcher.Downloads/DownloadManager.cs:400-468 | Requested and prepared always partition the missing hashes, and logical bytes are the sizes of the prepared. Packs are read smallest first, each one fetched, with a source, and wanted for enough of it; prepared chunks come out of these packs, and network bytes are theirs. Without an exception every other pack has no source, nothing still wanted, or was left to the relay. |
| PackDownload.PackDownloader.TakeFrom | launcher/src/Launcher.Downloads/DownloadManager.cs:412-464 | A pack is read if and only if it can be fetched, has a source and wanted chunks, and these are not too small a part of it to be read whole. |
| PackDownload.RelayIff | launcher/src/Launcher.Downloads/DownloadManager.cs:416-420 | A pack is left to the relay if and only if that is allowed, it can be read in parts, and the bytes covered are less than the threshold times its size. |
| PackDownload.CoveredBytesMean | launcher/src/Launcher.Downloads/DownloadManager.cs:414-414 | The bytes covered are the sizes of the wanted chunks among those of a pack, each once. |
| PackDownload.SortedAscends | launcher/src/Launcher.Downloads/DownloadManager.cs:409-409 | Packs are taken by ascending size, and those of one size by ascending hash. |
| PackDownload.PackOrderIsTotal | launcher/src/Launcher.Downloads/DownloadManager.cs:409-409 | Size, then hash, is a total order on packs. |
| PackDownload.PackDownloader.MaterializeChunk | launcher/src/Launcher.Downloads/DownloadManager.cs:453-463 | Stores a chunk exactly when its pack holds it with the right digest and size; a refused one changes nothing, and a wanted chunk stays while there is room. |
| PackDownload.CoveredIndex | launcher/src/Launcher.Downloads/DownloadManager.cs:412-412 | The chunks covered keep the order of their pack: what is requested before one of them is covered before it. |
| CacheRoom.StartsRoomy | launcher/src/Launcher.Storage/ChunkCache.cs:120-130 | There is room for a download when the wanted chunks and the pinned entries fit the limit, wanted entries have their sizes, and all others were used before it started. |
| CacheRoom.RecentSurvive | launcher/src/Launcher.Storage/ChunkCache.cs:120-130 | The entries used last all survive an eviction pass when they fit beside the pinned ones. |
| CacheRoom.PutKeepsRoom | launcher/src/Launcher.Storage/ChunkCache.cs:64-70 | With room for all wanted chunks beside the pinned ones, storing one evicts none of them and leaves that room. |
| DownloadRun.FindMissing | launcher/src/Launcher.Downloads/DownloadManager.cs:107-114 | Notes exactly the chunks that are not in the cache, and touches the others. |
| DownloadRun.PackPhase | launcher/src/Launcher.Downloads/DownloadManager.cs:102-132 | Prepares chunks from packs for exactly what was missing, out of the packs read, whose network bytes it reports, or none after an exception; with room, every prepared chunk is in the cache afterwards. |
| DownloadRun.TaskPhase | launcher/src/Launcher.Downloads/DownloadManager.cs:136-205 | Alone, asks the resolver for exactly the chunks that neither packs prepared nor the cache holds; with room no task then lacks a location and every chunk is in the cache afterwards. |
| DownloadRun.RunTask | launcher/src/Launcher.Downloads/DownloadManager.cs:155-201 | A task finds its chunk, lacks a location, or fetches it into the cache, in this order. |
| DownloadRun.RunTasksOnCache | launcher/src/Launcher.Downloads/DownloadManager.cs:152-205 | In whatever order tasks take their turns, among other users or alone, each ends as what it finds makes it; alone and with room they find all that was there and leave all that they fetched. |
| DownloadRun.NoLocationIff | launcher/src/Launcher.Downloads/DownloadManager.cs:138-171 | With a resolver that answers exactly what it is asked, a task lacks a location if and only if some chunk nobody asked for has left the cache when its task looks. |
| DownloadRun.PreparedIsFound | launcher/src/Launcher.Downloads/DownloadManager.cs:156-168 | When all tasks end well, the bytes packs prepared are exactly those counted as found from packs. |
| DownloadRun.Download | launcher/src/Launcher.Downloads/DownloadManager.cs:83-205 | A download reports exactly if no uncaught exception ended its packs and all tasks ended well; then prepared equals total, every chunk is counted once, and all bytes balance. Alone and with room no task lacks a location and every chunk is in the cache afterwards; alone, with nothing pinned, packs that bring more than the cache holds make a task lack one. |
| DownloadRun.DownloadedIsRebuildable | launcher/src/Launcher.Installation/Installer.cs:360-374 | A cache with every chunk of a build rebuilds every file as the build's own objects do. |
| DownloadRun.CacheTooSmall | launcher/src/Launcher.Downloads/DownloadManager.cs:171-171 | A pack brings two chunks into a cache of one byte: the download fails for want of a location. |
| DownloadRun.ExceptionAfterOne | launcher/src/Launcher.Downloads/DownloadManager.cs:122-131 | One chunk is brought before a caught exception: the download succeeds and its byte is in no count of bytes. |
| Eviction.PassResult | launcher/src/Launcher.Storage/ChunkCache.cs:120-130 | A pass removes its victims only, none pinned, none when within the limit, and ends within the limit or with pins only. |
| Eviction.PassIsNeeded | launcher/src/Launcher.Storage/ChunkCache.cs:120-130 | Before each removal the cache was still over its limit. |
| Eviction.PassIsOldestFirst | launcher/src/Launcher.Storage/ChunkCache.cs:125-125 | Victims leave oldest first, and no unpinned survivor is older than a victim. |
| Eviction.NewestSurvives | launcher/src/Launcher.Storage/ChunkCache.cs:64-70 | The entry used last survives whenever it fits beside the pinned ones. |
| ChunkCache.ChunkCache.EvictIfNeeded | launcher/src/Launcher.Storage/ChunkCache.cs:120-130 | Terminates as such a pass and deletes exactly the victims' files. |
| ChunkCache.ChunkCache.Candidate | launcher/src/Launcher.Storage/ChunkCache.cs:125-126 | Finds no victim exactly within the limit or with pins only; otherwise the oldest unpinned entry. |
| ChunkCache.ChunkCache.Initialize | launcher/src/Launcher.Storage/ChunkCache.cs:18-35 | Indexes exactly the files named by a hash and evicts; the counter is the sum of indexed sizes. |
| ChunkCache.ChunkCache.Read | launcher/src/Launcher.Storage/ChunkCache.cs:37-45 | Returns bytes if and only if they still have the digest they are filed under, refreshing exactly that entry's last access, and deletes them otherwise. |
| ChunkCache.ChunkCache.Put | launcher/src/Launcher.Storage/ChunkCache.cs:47-71 | Stores bytes exactly under their digest, then evicts; a refused call changes nothing. |
| ChunkCache.ChunkCache.PutFile | launcher/src/Launcher.Storage/ChunkCache.cs:73-104 | Moves a file in exactly when it has the digest; otherwise the file stays where it was. |
| ChunkCache.ChunkCache.Clear | launcher/src/Launcher.Storage/ChunkCache.cs:113-118 | Leaves exactly the pinned entries. |
| ChunkCache.ChunkCache.Pin | launcher/src/Launcher.Storage/ChunkCache.cs:106-111 | A lease pins its chunk and keeps all other leases covered. |
| ChunkCache.PinLease.Dispose | launcher/src/Launcher.Storage/ChunkCache.cs:146-146 | Unpins once; other leases stay covered if and only if none of them is on the same chunk. |
| ChunkCache.DisposeOneOfTwo | launcher/src/Launcher.Storage/ChunkCache.cs:106-111 | Two leases on one chunk, one disposed: the other's chunk is not pinned. |
| CacheInterleavings.IndexedAfterIff | launcher/src/Launcher.Storage/ChunkCache.cs:47-141 | However file and index steps of calls interleave, the index describes the files afterwards if and only if for every name the last call at its file and the last call at its entry leave the same. |
| CacheInterleavings.DeleteMeetsPutIff | launcher/src/Launcher.Storage/ChunkCache.cs:132-141 | A delete and a put of one chunk leave it rightly indexed if and only if the call first at the file is first at the index. |
| CacheInterleavings.UnindexedFile | launcher/src/Launcher.Storage/ChunkCache.cs:132-141 | A delete overtaken by a put leaves a stored file without an entry. |
| CounterInterleavings.CounterIsSumIff | launcher/src/Launcher.Storage/ChunkCache.cs:18-35 | However locked steps interleave, the byte counter is the sum of indexed sizes if and only if no scan since the last clearing found bytes indexed under its name already. |
| CounterInterleavings.CountedTwice | launcher/src/Launcher.Storage/ChunkCache.cs:21-33 | A chunk stored between the clearing and the scan is counted twice. |
| ScratchBudget.Budget.Reserve | scraper/src/launcher_scraper/downloader.py:71-81 | Succeeds exactly when the amount is not negative and fits; a refusal changes nothing. |
| ScratchBudget.Reservation.Release | scraper/src/launcher_scraper/downloader.py:94-98 | Gives back exactly the amount, once, and the clamp at zero is never needed. |
| ScratchBudget.Reservation.Resize | scraper/src/launcher_scraper/downloader.py:100-109 | Succeeds exactly when the new total fits; a refusal changes nothing; used bytes stay the sum of all live reservations. |
| ScratchBudget.Reservation.Grow | scraper/src/launcher_scraper/downloader.py:111-113 | Raises the reservation to a size, or refuses because it does not fit. |
| ArtifactDownload.DrainedMeans | scraper/src/launcher_scraper/downloader.py:344-353 | The reads are all written if and only if the whole length is allowed and affordable; what is written always is. |
| ArtifactDownload.PartAfterIsAllowed | scraper/src/launcher_scraper/downloader.py:252-370 | What an attempt leaves on disk is allowed, and affordable if and only if what it found was. |
| ArtifactDownload.CompleteMeans | scraper/src/launcher_scraper/downloader.py:363-370 | A completed artifact is not empty, within the limit, and of the expected size. |
| ArtifactDownload.CompleteIff | scraper/src/launcher_scraper/downloader.py:252-370 | An attempt completes if and only if its body, continuing bytes within the limits or starting over, ends uninterrupted in a length within them that can be reserved, as can what was kept and what was announced; that length is then on disk. |
| ArtifactDownload.StaleFileBlocks | scraper/src/launcher_scraper/downloader.py:254-259 | A file left from before that cannot be reserved makes every attempt fail, whatever servers answer. |
| ArtifactDownload.WholeAnswerSucceedsIff | scraper/src/launcher_scraper/downloader.py:211-233 | When retries lead to an answer with the whole artifact, the download succeeds if and only if the file left from before can be reserved. |
| ArtifactDownload.RestartIsRefused | scraper/src/launcher_scraper/downloader.py:308-337 | Concrete terms, leftover and answer for which a restart is refused before the file is truncated. |
| ArtifactDownload.LeftoverIsUnaffordable | scraper/src/launcher_scraper/downloader.py:252-259 | Concrete terms and a leftover that cannot be reserved. |
| ScratchBudget.Download.Drain | scraper/src/launcher_scraper/downloader.py:342-355 | Each read is reserved before it is written; the loop stops exactly at the first read that is not allowed or not affordable. |
| ScratchBudget.Download.Stream | scraper/src/launcher_scraper/downloader.py:342-370 | Completes if and only if the uninterrupted body is allowed, affordable and of the expected size; a failure says whether to retry. |
| ScratchBudget.Download.DownloadWithResponse | scraper/src/launcher_scraper/downloader.py:281-370 | From the server's answer on: where it stops, whether to retry, what is left on disk, and when that exceeds the reservation. |
| ScratchBudget.Download.DownloadOnce | scraper/src/launcher_scraper/downloader.py:238-370 | From the bytes on disk, the answer and the budget: exactly when an attempt completes, is refused or stops in a restart, what it leaves on disk, and exactly when that exceeds the reservation. |
| ScratchBudget.DownloadArtifact | scraper/src/launcher_scraper/downloader.py:180-236 | However it ends, the budget and all other reservations are as before; it completes if and only if its size is within bounds and reservable and the answers, taken in turn while a retry is worth it, succeed. |
| ScratchBudget.UncoveredAfterRestart | scraper/src/launcher_scraper/downloader.py:308-337 | A budget of ten bytes, three old ones and an answer that announces twenty from the beginning: three stay on disk and fewer are reserved. |
| ScratchBudget.UncoveredFromStart | scraper/src/launcher_scraper/downloader.py:252-259 | Room for one byte and three old ones: three stay on disk and fewer are reserved. |
| JobTable.StepKeeps | scraper/src/launcher_scraper/jobs.py:132-239 | Every event keeps the invariant: claims within the maximum and counted by the attempts of every job that is not cancelled, waiting jobs have attempts left, jobs in progress carry a lease, one active job for each source and target. |
| JobTable.RunKeeps | scraper/src/launcher_scraper/jobs.py:132-239 | The same over every run in which workers write only what they hold; finished jobs keep their row or become cancelled, and their number of claims. |
| JobTable.FinishedStatusStepIff | scraper/src/launcher_scraper/jobs.py:211-219 | One event changes the status of a finished job if and only if it cancels a job that ended otherwise; it stays finished. |
| JobTable.FinishedStatusIff | scraper/src/launcher_scraper/jobs.py:132-239 | A run changes the status of a finished job if and only if it ended otherwise and some event cancels it; it stays finished. |
| JobTable.DoneBecomesCancelled | scraper/src/launcher_scraper/jobs.py:211-219 | A job that was queued, claimed and done is relabelled by a cancellation. |
| JobTable.ClaimsAreBounded | scraper/src/launcher_scraper/jobs.py:159-183 | From an empty table no job is ever claimed more often than its maximum. |
| JobTable.HeartbeatIsSafeIff | scraper/src/launcher_scraper/jobs.py:193-194 | A late heartbeat keeps the invariant if and only if the job is unfinished and was not claimed again. |
| JobTable.LateHeartbeat | scraper/src/launcher_scraper/jobs.py:193-194 | A done job is in progress again after one more heartbeat from the copy its worker had been handed. |
| JobTable.ReadStaysRead | scraper/src/launcher_scraper/jobs.py:211-219 | A copy of a row stays one that may be written back as a cancellation, through every run. |
| JobTable.CancelAcrossRun | scraper/src/launcher_scraper/jobs.py:211-219 | A row is read, anything happens, its cancellation is written: the invariant holds, the job is cancelled with the attempts it had when it was read. |
| JobTable.CancelForgetsAClaim | scraper/src/launcher_scraper/jobs.py:211-219 | A claim between the two halves is not in the cancelled row. |
| JobTable.EnqueueIsSafeIff | scraper/src/launcher_scraper/jobs.py:132-157 | Enqueueing keeps the invariant if and only if it finds an active job or allows an attempt. |
| JobTable.RecoverMeans | scraper/src/launcher_scraper/jobs.py:221-239 | A recovery changes exactly the rows of jobs in progress whose lease is over: to another attempt if one is left, to failed otherwise, without a lease. |
| JobTable.ClaimableIff | scraper/src/launcher_scraper/jobs.py:165-172 | In every table a run keeps in order, a job can be claimed if and only if it is queued or waits for another attempt. |
| JobStore.SQLiteJobStore.Enqueue | scraper/src/launcher_scraper/jobs.py:132-157 | Returns the oldest active job of the source and target, or inserts a queued one if and only if there is none. |
| JobStore.SQLiteJobStore.Claim | scraper/src/launcher_scraper/jobs.py:159-183 | Hands out the claimable job updated first, and created first among those, with one attempt more and a lease; returns none exactly when there is none, changing nothing. |
| JobStore.SQLiteJobStore.Save | scraper/src/launcher_scraper/jobs.py:185-191 | Overwrites an existing row and creates none. |
| JobStore.SQLiteJobStore.Fail | scraper/src/launcher_scraper/jobs.py:203-209 | Leads to another attempt exactly when one is wanted and left. |
| JobStore.SQLiteJobStore.GetJob | scraper/src/launcher_scraper/jobs.py:241-244 | Reads a copy of the row, or none. |
| JobStore.SQLiteJobStore.CancelCopy | scraper/src/launcher_scraper/jobs.py:215-219 | Writes a copy that was read before back as cancelled. |
| JobStore.SQLiteJobStore.Cancel | scraper/src/launcher_scraper/jobs.py:211-219 | Cancels a known job and reports an unknown one; its two halves are those above. |
| JobStore.SQLiteJobStore.RecoverExpired | scraper/src/launcher_scraper/jobs.py:221-239 | The row loop equals the one simultaneous step on all expired jobs, and counts them. |
| JobStore.IngestionScheduler.Record | scraper/src/launcher_scraper/scheduler.py:227-234 | A record by the lease holder keeps the invariant and everything but its message and lease. |
| JobStore.IngestionScheduler.Finish | scraper/src/launcher_scraper/scheduler.py:236-251 | Done on success, another attempt on a passing failure with one left, failed otherwise. |
| JobStore.IngestionScheduler.RunJob | scraper/src/launcher_scraper/scheduler.py:83-175 | With any heartbeats between, a claimed job ends in exactly that state and every write is one the lease holder may make. |
| JobStore.IngestionScheduler.RunOnce | scraper/src/launcher_scraper/scheduler.py:76-175 | Recover, enqueue, claim and run keep the invariant; the claimed job is not left in progress, and none is claimed only if none is claimable. |
| Planner.HeuristicFollowsLinks | scraper/src/launcher_scraper/planner.py:40-60 | The heuristics follow a link of the page that is a detected download or no pagination link. |
| Planner.HeuristicOrder | scraper/src/launcher_scraper/planner.py:40-60 | On every page the heuristics choose the first link with a detected download, else the first link that leads to a release, else the page itself if it has a title or headings. |
| Planner.DeduplicatedKeepsEachOnce | scraper/src/launcher_scraper/planner.py:256-256 | The reported addresses are those visited, each once. |
| Planner.UnknownSitePlanner.Decide | scraper/src/launcher_scraper/planner.py:141-188 | Asks the interpreter exactly when the heuristics name no link and its budget allows; a chosen action is sure enough and names an element of the page; a refusal has one of the named reasons. |
| Planner.RecordedSomewhere | scraper/src/launcher_scraper/planner.py:189-191 | Every action of the history was recorded on one of the pages walked. |
| Planner.UnknownSitePlanner.Explore | scraper/src/launcher_scraper/planner.py:92-250 | The loop walks along distinct, unchallenged pages, each left by one browser action, and searches each on arrival and again for every action that asks for it, all in vain but the last search of a success, whose releases it reports; its status is a success, a challenge, or explained by a spent budget or a named failure. |
| Planner.UnknownSitePlanner.Run | scraper/src/launcher_scraper/planner.py:78-263 | Terminates for every session, interpreter, adapter and clock; the report stays within the page, action, call and navigation budgets, every recorded target is an element of the page it was chosen on, and success means a release with a download. |
| CategoryProtocol.StepKeeps | launcher/src/Launcher.App/ViewModels/ShellViewModel.cs:545-581 | Every event keeps one worker, queue order and the slot's account; only an uncaught failure can strand a state. |
| CategoryProtocol.RunKeeps | launcher/src/Launcher.App/ViewModels/ShellViewModel.cs:529-582 | The same over every run. |
| CategoryProtocol.FaultStrandsIff | launcher/src/Launcher.App/ViewModels/ShellViewModel.cs:573-580 | An uncaught failure ends the only worker, and strands a state if and only if one is waiting. |
| CategoryProtocol.StaysStranded | launcher/src/Launcher.App/ViewModels/ShellViewModel.cs:559-571 | A stranded state stays in the slot, and nothing is saved, through every run without a queue call. |
| CategoryProtocol.NextQueueRecovers | launcher/src/Launcher.App/ViewModels/ShellViewModel.cs:545-554 | The next queue call starts a worker that is handed the newest state; the stranded one is never saved. |
| CategoryProtocol.RunStrandsIff | launcher/src/Launcher.App/ViewModels/ShellViewModel.cs:529-582 | A run ends with a stranded state if and only if it began with one and queued none, or a save failed uncaught while a state waited and none was queued after that. |
| CategoryProtocol.EveryInterleaving | launcher/src/Launcher.App/ViewModels/ShellViewModel.cs:529-582 | For every interleaving from the start: once no worker runs, the last state handed to save is the last queued if and only if no save failed uncaught while a state waited, with none queued after that. |
| CategoryProtocol.FaultStrands | launcher/src/Launcher.App/ViewModels/ShellViewModel.cs:573-580 | Three events that strand the second state queued, and a fourth that saves the third. |
| CategoryProtocol.StartIsTake | launcher/src/Launcher.App/ViewModels/ShellViewModel.cs:553-571 | Assigning the task reference after the worker's first synchronous steps comes to the same as before them. |
| CategoryWriter.ShellViewModel.QueueCategoryPersistence | launcher/src/Launcher.App/ViewModels/ShellViewModel.cs:529-555 | Performs exactly the protocol's queue event, and nothing before the categories are loaded. |
| CategoryWriter.ShellViewModel.PersistQueuedCategoryStateStep | launcher/src/Launcher.App/ViewModels/ShellViewModel.cs:557-582 | Each stretch of the worker between two waits is exactly one event of the protocol. |
| FloodFill.BlackBackgroundMeans | launcher/src/Launcher.App/ViewModels/ArtworkLoader.cs:202-212 | A pixel counts as background if and only if its alpha is at least 224, no colour is above 78, and no two colours differ by more than 28. |
| FloodFill.MarkBackground | launcher/src/Launcher.App/ViewModels/ArtworkLoader.cs:101-150 | Terminates, marks exactly the dark pixels joined to a seed by an eight-connected dark path, and counts them. |
| FloodFill.SeedsSuffice | launcher/src/Launcher.App/ViewModels/ArtworkLoader.cs:104-120 | The seeds reach all that the border reaches, except exactly on one row whose last pixel is dark beside one that is not. |
| FloodFill.MissedPixel | launcher/src/Launcher.App/ViewModels/ArtworkLoader.cs:104-120 | A picture of two pixels on one row whose dark border pixel the seeds do not find. |
| FloodFill.ClosedIsFilled | launcher/src/Launcher.App/ViewModels/ArtworkLoader.cs:123-150 | A closed set of reached pixels with the dark seeds is the whole fill. |
| FloodFill.ScanNeighbours | launcher/src/Launcher.App/ViewModels/ArtworkLoader.cs:125-149 | After one expansion every dark neighbour is marked and every queued pixel is reached. |
| FloodFill.EnqueueBorder | launcher/src/Launcher.App/ViewModels/ArtworkLoader.cs:104-120 | Every dark seed is marked and queued, and nothing else. |
| FloodFill.RemoveOpaqueBlackBackground | launcher/src/Launcher.App/ViewModels/ArtworkLoader.cs:79-192 | Rewrites the alpha of exactly the filled region when it is large enough, and otherwise leaves every byte. |
| FloodFill.ThinnedAlphaMeans | launcher/src/Launcher.App/ViewModels/ArtworkLoader.cs:159-175 | A background pixel none of whose colours is above 42 becomes transparent; the others keep the feathered alpha of their largest colour. |
| Vdf.UnescapeVdf | launcher/src/Launcher.App/Runtime/SteamLibraryDiscovery.cs:660-682 | The loop computes the meaning of the escapes, a last lone backslash included. |
| Vdf.TokenizeVdf | launcher/src/Launcher.App/Runtime/SteamLibraryDiscovery.cs:466-529 | Terminates on every text, computes its tokens, and fails only on an unterminated string. |
| Vdf.ParseVdfObject | launcher/src/Launcher.App/Runtime/SteamLibraryDiscovery.cs:440-464 | The recursive loop computes the object up to its closing brace or the last token, or refuses its depth. |
| Vdf.TokensOfText | launcher/src/Launcher.App/Runtime/SteamLibraryDiscovery.cs:466-529 | Any text put together from white space, comments, braces, quoted strings with any spelling and bare words has exactly the tokens it spells, where a backslash before n, r and t means a line feed, a carriage return and a tab. |
| Vdf.ParsesTree | launcher/src/Launcher.App/Runtime/SteamLibraryDiscovery.cs:440-464 | The tokens of any tree parse to its fields assigned in order, children first, or to a refusal beyond the depth limit. |
| Vdf.LastKeyWins | launcher/src/Launcher.App/Runtime/SteamLibraryDiscovery.cs:444-462 | Of keys that differ only in case the first gives place and spelling, the last the value. |
| Vdf.ReadsBackIff | launcher/src/Launcher.App/Runtime/SteamLibraryDiscovery.cs:431-464 | A text that spells a tree is read back as that tree if and only if it is at most 64 deep and no object repeats a key ignoring case; deeper trees and no others are refused. |
| Vdf.ReadsRepeatedKeys | launcher/src/Launcher.App/Runtime/SteamLibraryDiscovery.cs:431-464 | What every text that spells a tree at most 64 deep is read as, repeated keys included. |
| Vdf.PrintThenParse | launcher/src/Launcher.App/Runtime/SteamLibraryDiscovery.cs:431-529 | Printing with escaped quoted strings and parsing is the identity under exactly those conditions. |
| Vdf.WhatIsReadCanBePrinted | launcher/src/Launcher.App/Runtime/SteamLibraryDiscovery.cs:431-464 | Whatever the text, a tree that was read prints to a text that is read as the same tree. |
| QuotedPrintable.DecodeQuotedPrintable | server/crates/provisioning/src/email.rs:390-418 | The loop computes the decoding of the whole body, or its first error. |
| QuotedPrintable.DecodesUnit | server/crates/provisioning/src/email.rs:394-415 | A byte passed through, a byte escaped in digits of either case, or a soft line break decodes to that byte or to nothing, whatever follows. |
| QuotedPrintable.DecodesEveryEncoding | server/crates/provisioning/src/email.rs:390-429 | Decoding gives back what was encoded, whichever bytes were escaped, '=' among them, in digits of either case, with soft line breaks anywhere between units. |
| QuotedPrintable.AcceptsOnlyEncodings | server/crates/provisioning/src/email.rs:390-429 | Every body it accepts is such an encoding of the bytes it returns. |
| QuotedPrintable.DecodesIffEncoded | server/crates/provisioning/src/email.rs:390-429 | A body decodes to some bytes if and only if some such encoder turns these bytes into it. |
| QuotedPrintable.RefusesBadTail | server/crates/provisioning/src/email.rs:401-429 | After any encoded beginning, an equals sign cut short is a truncated body, and one before anything but two digits or a line end an invalid escape. |
| Versions.ComparePreRelease | launcher/src/Launcher.App/Runtime/LauncherUpdateService.cs:238-265 | The loop compares the dot-separated identifiers one by one, then the counts. |
| Versions.IsNewerVersion | launcher/src/Launcher.App/Runtime/LauncherUpdateService.cs:171-191 | Both parse, and the candidate comes later by core, then by pre-release. |
| Versions.NewerMeans | launcher/src/Launcher.App/Runtime/LauncherUpdateService.cs:171-191 | One text is newer than another if and only if both parse and the first differing core number is larger, or the cores agree and it is the release of a pre-release or has the later pre-release, by section 11 of Semantic Versioning 2.0.0. |
| Versions.FirstDifferenceDecides | launcher/src/Launcher.App/Runtime/LauncherUpdateService.cs:179-183 | Cores are ordered by their first differing number. |
| Versions.ParsesRelease | launcher/src/Launcher.App/Runtime/LauncherUpdateService.cs:198-236 | What every text of numbers between dots, a pre-release after a dash and build data after a plus is parsed as, with any white space around it and any v before it, and exactly when it is refused. |
| Versions.JoinsSplit | launcher/src/Launcher.App/Runtime/LauncherUpdateService.cs:220-220 | Splitting at a character loses nothing and leaves it in no part. |
| Versions.NewerIsStrictWeakOrder | launcher/src/Launcher.App/Runtime/LauncherUpdateService.cs:171-236 | Newer is irreflexive, asymmetric and transitive, with transitive ties, on every text. |
| Versions.FollowsSection11 | launcher/src/Launcher.App/Runtime/LauncherUpdateService.cs:238-265 | Pre-release tags are ordered by the first differing identifier, numeric below textual, a proper prefix first: section 11 of Semantic Versioning 2.0.0, with text compared after case folding. |

## Left out

- Network, HTML redirect pages, other response headers, waiting, pausing, progress reports and cancellation: they decide only when a step happens or what a server answers, which is arbitrary here.
- The file system below flat maps from path to bytes: directories, reparse points, case folding and paths outside the root.
- Digest, compression and chunking algorithms, identifiers, clocks and random numbers: parameters with stated assumptions.
- Manifests.Validate: does not model path normalization, the launch profile and the identity fields, because they are single checks that no later step relies on.
- Packager.Output.PackageDirectory: validates with the same checks, so it does not fail for a path or launch profile; its own writes do not fail.
- The production pack writer and the provisioning state machine are not part of this model; the writer here is a reference that follows the reader's layout.
- The journal's own parsing and safety checks, recovery without a state store, and several waiting transactions in one root: the model has one transaction and its journal.
- Reinstalling or updating to a build the database already records: a recovery would then keep whatever is on disk, and the code promises nothing.
- Uninstalling, launching and injected failures of the installer: an injected failure is one of the free failures of a step.
- Installer.Installation.Recover: deletes partial and staged files as one step each, because no later step depends on the order inside those loops.
- Installer.Installation.Repair: is stated for manifests with distinct paths, which validation guarantees.
- Reconstruction.ReconstructFile: reads the chunks from a fixed cache, so eviction while a file is being rebuilt shows as a missing chunk.
- Source files that change while they are packaged beyond the reported size.
- The cache of packs and the retries around fetching one: the same shape as the chunk cache and the chunk downloader; here a pack is fetched or not.
- PackDownload.PackDownloader.DownloadPacks: takes the packs that can be fetched, and their network bytes, as given, and compares the sparse threshold over reals, not in double precision.
- DownloadAccounting.Counters.RunTasks: describes downloads in which every chunk succeeds; a failed one reports no summary.
- DownloadRun.Download: a resolver or pack listing that fails as a whole is not modelled, others use the cache only between the tasks and phases, not inside one, and fetching a chunk brings its bytes or nothing, as ChunkDownload shows; what a failed download has counted is not stated.
- ChunkDownload.Downloader.DownloadChunkWithRetry: takes the refreshed list as given, so a failing resolver, which ends the call, is not modelled.
- ScratchBudget.Download.DownloadOnce: ends before the checksum of a complete file is compared.
- ScratchBudget.DownloadArtifact: other downloads do not reserve or release between its attempts, so what it can afford stays the same.
- The publication of work status, diagnostics, stages and visited addresses by the scheduler: no decision depends on them.
- JobStore.IngestionScheduler.RunJob: an exception inside discovery or acquisition is a passing failure; one inside the final write is not modelled.
- JobStore.IngestionScheduler.RunOnce: takes the list of due sources as given, and no other worker or cancellation acts between its steps; JobTable.RunKeeps covers every interleaving.
- Vdf.ParseVdfObject: objects are values returned by the call, not dictionaries filled in place; keys keep the order of first insertion.
- The lookups on a parsed document, and the size limit of the text: single recursive or bounded reads.
- FloodFill.RemoveOpaqueBlackBackground: the rounded feather of brighter pixels is a parameter, because it is floating-point arithmetic.
- Planner.UnknownSitePlanner.Explore: what the interpreter is told and the messages of a result are not modelled; exceptions the loop does not catch end it.
- Versions.FollowsSection11: identifiers are numbers exactly where `int.TryParse` says so, which differs from the standard for signs, spaces, leading zeros and very long numbers, and letters compare without case where the standard compares them exactly.
- The library view model outside category persistence, and how its saves reach the database.
