# Arq backup tools: a verified model

A Dafny model of the Arq 5 and Arq 7 backup writer, reader and validator, with proofs about whole runs. Text is kept as
bytes or code points, positions and sizes are unbounded unless a field's width matters, and exceptions are `Err`.

`dafny verify dfyconfig.toml` checks everything.

## What is modelled

- **Backup and restore** (`Snapshot`, `PathFilter`, `BlobStore`, `Recording`, `Backup`, `Restore`, `BackupRestore`, `Chunker`).
  `Backup` walks a source tree, chunks files, writes each distinct plaintext once, and keeps the blob and inode caches;
  `Restore` walks back with its tree cache and path filter. The central invariant is that every cached loc resolves to the
  plaintext it was written for and that the store loses nothing; from it follows that restoring gives the source back.
- **Binary formats** (`Bytes`, `TreeFormat`, `TreeRoundTrip`, `TreeWire`, `TreeTear`, `TreeReader`, `Arqo`, `PackScan`,
  `Arq5Wire`, `Arq5Tree`, `Arq5TreeFile`, `Arq5TreeReader`, `Arq5Pack`, `Arq5PackFile`, `Arq5Restore`). Each stateful parser
  is shown to compute a function of the bytes and a position, and that function inverts the encoder.
- **Audits** (`AuditCore`, `Schedule`, `FullAudit`, `Layouts`, `DripWalk`, `DripSweep`, `DripGaps`, `AuditDrip`). The full
  audit's parallel driver is a machine of ledger look-ups, submissions and completions whose every schedule is compared
  with the sequential fold. Audit-drip is a cursor over many cut-off fires.
- **Blob graphs** (`BlobGraph`, `RecordWalk`, `DedupWalk`, `SnapshotDiff`). Two worklists over a possibly cyclic graph,
  and the recursive comparison of two snapshots.
- **Smaller machines** (`EventTail`, `SftpRetry`, `RecordLayout`), over `Ordering` and `Wrappers`.

Cryptography, compression and digests are abstract functions with the laws stated in `BlobStore.Crypto.Lawful` and
`Arq5Pack.Is20`. Blob ids are taken to differ for different plaintexts written (`Backup.Config.Sound`). The clock, the
file system's answers, the server's replies and the order in which workers finish are nondeterministic choices.

## Where the code departs from what it says

- An unencrypted blob whose plaintext is 0x4152514F bytes long starts with the letters ARQO and is taken for a sealed one
  (`BlobStore.FetchInvertsWrite`).
- The writer keys its inode cache by device and inode, the reader its hard links by inode alone; the restored bytes are the
  source's exactly when linked files with one inode number agree (`BackupRestore.RestoredEqualsSource`).
- The chunker's header says identical content is cut identically wherever it stands; that holds exactly from a common cut on
  (`Chunker.TailCutsAlikeIff`, `Chunker.SameContentDifferentChunks`).
- The pack scan says a torn or foreign pack raises; a tear at a length an object can have is not noticed, a tear inside the
  magic spoils the object before it, and an aligned magic inside ciphertext splits an object (`PackScan.TornPack`,
  `PackScan.TornMagic`, `PackScan.IndexExactIff`). The multi-object check has no minimum object length, so a short object
  can pass it and fail the single-object check (`PackScan.ShortObjectPasses`, `PackScan.ChecksAgreeIff`).
- The parallel audit looks a name up in the ledger before earlier files with that name have finished
  (`Schedule.ParallelAgreesIff`).
- The audit-drip walk lists families in an order that its cursor comparison does not share, so a fire that stops among a
  computer's treepacks or later families makes the next one pass over files or repeat them (`DripWalk.WalkIncreasingIff`,
  `DripGaps.EveryCutSweepExactIff`).
- A record's repeated tree node keeps its own tree, xattr and ACL locs unchecked, because the walk moves on at once: a
  report can be clean although a blob is missing (`RecordWalk.RepeatedTreeGoesUnchecked`). Losses always show if and only
  if the nodes passed over bring no blob of their own (`RecordWalk.LossesShowIff`).
- The Arq 5 reader fills its SHA-1 table for the first computer asked about and never again
  (`Arq5Restore.OtherComputersAreMissed`, `Arq5Restore.SecondComputerIsMissed`).
- The consumer of a run's events forwards nothing more once 50 have been seen (`EventTail.AnyRun`).

## Conditions the results carry

- `Snapshot.ValidEntry`: names of a directory are proper and distinct, and lengths are below 2^64 (content below 2^63).
- `DripWalk.Listed`: a directory listing names nothing twice. `SnapshotDiff.GoodNames`: names are not empty and hold no slash.
- `BlobGraph.Addressed` and `SnapshotDiff.Addressed`: equal tree ids mean equal trees. `RecordWalk.RepeatsAlike`: tree nodes
  with one id carry the same locs.
- `BackupRestore.RestoreDamaged`: the damaged store answers for a loc what the intact one did, or fails; a store that only
  lost objects does (`BackupRestore.MissingObjectsOnlyLose`).
- `RecordWalk.TreesNamed`: tree ids are not empty; the walk remembers no empty id and need not end on a cycle through one.
- `AuditDrip.State.RunFire`: the clock reads a positive time, 0 standing for a sweep never started.
- The ghost `largest` of the audit drivers is any bound on the lengths of the bodies read.
- `SftpRetry.Policy.Sensible`: the policy's numbers are not negative.

## Model

| member | source | states |
|---|---|---|
| TreeReader.BinaryReader.ReadString | arq_reader/parse.py:83-100 | the flag byte decides null or text, any other flag or a short buffer fails, and the position ends just after the text |
| TreeReader.BinaryReader.ParseBlobLoc | arq_reader/parse.py:108-141 | the stateful reads of a blob loc agree with the positional description, failures included |
| TreeReader.BinaryReader.ParseNode | arq_reader/parse.py:148-255 | the same for a node of either kind under every tree version |
| TreeReader.ParseTreeBytes | arq_reader/parse.py:266-278 | the same for a whole tree; bytes after the last child are ignored |
| TreeRoundTrip.ReadBlobLoc | arq_reader/parse.py:108-141 | reading a written loc, whatever surrounds it, gives its stored form and stops at its end |
| TreeRoundTrip.ReadVersioned | arq_reader/parse.py:190-233 | the reparse fields (from version 2) and the 38-byte block (from version 4) come back, and nothing is read for older versions |
| TreeRoundTrip.ReadNode | arq_reader/parse.py:148-255 | reading a written node inside any buffer gives its stored form and stops exactly at its end |
| TreeRoundTrip.ParseInvertsWrite | arq_writer/serialize.py:247-263 | parsing a written tree followed by anything gives the tree with its unsigned fields masked, unstored fields dropped and the version-4 block filled in |
| TreeRoundTrip.RoundTripIffFits | arq_writer/serialize.py:247-263 | the very tree comes back if and only if every field fits its width and its version |
| TreeRoundTrip.NodesArePrefixFree | arq_writer/serialize.py:99-153 | encoded nodes are uniquely decodable, also when followed by different bytes |
| TreeRoundTrip.ReadWriteRead | arq_reader/parse.py:266-278 | whatever byte string parses can be written back and parses to the same tree |
| TreeWire.WriteIsTable | arq_writer/serialize.py:99-263 | a written tree is one flat table of fields, in this order and of these widths and versions, one after the other |
| TreeTear.KeepsTree | arq_reader/parse.py:266-278 | what parses does not depend on the bytes that follow it |
| TreeTear.TornTreeFails | arq_reader/parse.py:266-278 | a written tree cut short anywhere does not parse |
| Chunker.SlideIsWindowHash | arq_writer/chunker.py:148-158 | the rolling step computes the hash of the window moved by one byte |
| Chunker.Buzhash.FindEnd | arq_writer/chunker.py:160-214 | the rolling search ends a chunk at the first boundary between the minimum and the maximum size, found without rolling |
| Chunker.FirstBoundaryIsFirst | arq_writer/chunker.py:160-214 | the search yields a boundary, or the limit, and no earlier place is a boundary |
| Chunker.CutIsFirst | arq_writer/chunker.py:160-214 | every chunk ends at the first boundary from its minimum size on, or else at its maximum size or with the data; a rest below the minimum is one chunk |
| Chunker.Buzhash.Chunk | arq_writer/chunker.py:160-214 | the chunker yields the chunks between successive cuts |
| Chunker.ChunksJoin | arq_writer/chunker.py:160-214 | the chunks join to the data, none is empty or above the maximum, all but the last reach the minimum |
| Chunker.CommonTailChunksAlike | arq_writer/chunker.py:3-7 | from a common cut on, equal tails are chunked alike whatever came before |
| Chunker.TailCutsAlikeIff | arq_writer/chunker.py:3-7 | two streams with a common tail have the same cuts in it if and only if their first cuts in it are the same, and then the same chunks from there on |
| Chunker.SameContentDifferentChunks | arq_writer/chunker.py:3-7 | without a common cut equal content need not be chunked alike: a configuration, a string and a prefix that move every cut |
| BlobStore.FetchInvertsWrite | arq_reader/restore.py:355-399 | a stored blob is fetched back; unencrypted, exactly when its plaintext is not 0x4152514F bytes long, where the length prefix spells the magic |
| BlobStore.PackedAsAlone | arq_reader/restore.py:355-399 | a packed loc is answered with the object that stands at its offset, as if that object stood alone |
| BlobStore.FetchInvertsPacking | arq_reader/restore.py:355-399 | a blob written into a pack, wherever it comes to stand, is fetched back |
| BlobStore.PathsDiffer | arq_writer/backup.py:172-175 | distinct blob ids of one computer are stored at distinct paths |
| BlobStore.UnwrapInvertsWrap | arq_writer/lz4_block.py:105-115 | unwrapping inverts wrapping below 4 GiB, and the wrapped text starts with the magic for one plaintext length only |
| Backup.Backup.WriteBlob | arq_writer/backup.py:843-924 | a known id returns its cached loc and changes neither store nor cache; a new one adds exactly one object, under the path of its id and sealed with fresh random material, and lists its id once; only a new blob of 4 GiB or more fails; every cached loc still resolves to its plaintext |
| Backup.Backup.StoreObject | arq_writer/backup.py:843-924 | the uncached half: the store gains the sealed or plain object at the path of its id and nothing else, and the counters stay the sums over the blobs written |
| Backup.Backup.WriteContent | arq_writer/backup.py:1200-1218 | the locs of a file name its pieces in order, the chunks if there is a chunker and else the whole, and join back to its content through the recalled blobs |
| Backup.Backup.WalkFile | arq_writer/backup.py:966-1284 | a linked inode returns the very node cached under device and inode and writes nothing; any other file is written, its node describing content, size, inode and link count, keeping mode, owner, names and times, and it is cached if it has more links |
| Backup.Backup.WalkDir | arq_writer/backup.py:1286-1376 | the stored tree lists exactly the entries that are not skipped, in order, each with its own metadata and totals; containedFilesCount and itemSize of the node are the files and bytes below it, and the run counts them and the trees |
| Backup.Backup.Walk | arq_writer/backup.py:944-964 | for any entry the node written describes what the source records and carries its totals, or there is none when the entry is skipped |
| Recording.TreeNodeRecords | arq_writer/backup.py:1310-1376 | once the serialized tree is stored, the directory node read back describes the same children |
| Recording.DescribesExtends | arq_reader/restore.py:334-399 | a store that knows more blobs still describes the same intact snapshot |
| PathFilter.MatchNeedsAncestors | arq_reader/restore.py:141-172 | if the filter keeps a path then it descends into every directory above it |
| PathFilter.DescendNeedsAncestors | arq_reader/restore.py:153-172 | if the filter descends into a directory then it descends into every directory above it |
| PathFilter.KeepsAtOrBelow | arq_reader/restore.py:134-151 | a filter built from texts keeps a file exactly if one of the given paths is its own or that of a directory above it, by whole names; slashes around a text do not matter |
| PathFilter.DescendsOnTheWay | arq_reader/restore.py:153-172 | it descends into a directory exactly if that is the root or one of the given paths is its own, above it or below it |
| Restore.Restore.FetchTree | arq_reader/restore.py:334-353 | with or without a cached copy the fetched tree bytes are those of the loc |
| Restore.Restore.RestoreFile | arq_reader/restore.py:615-783 | a known linked inode becomes a hard link to its first path, other files get their joined chunks, a failed chunk is reported and leaves no file |
| Restore.Restore.RestoreDir | arq_reader/restore.py:545-612 | the walk installs exactly what the snapshot and the filter say, whatever is cached; which directories those are is said by PathFilter.DescendsOnTheWay |
| Restore.Restore.CountTree | arq_reader/restore.py:786-868 | the planned totals are those of the snapshot under the filter, and planning ticks stay at files divided by 200 |
| Restore.Restore.DryRunTree | arq_reader/restore.py:1025-1068 | the dry run lists the files and bytes the planning walk counts, for every filter |
| BackupRestore.PrunedKeepsNothing | arq_reader/restore.py:153-172 | a directory the filter does not descend into holds no kept file |
| BackupRestore.InstallInstalled | arq_reader/restore.py:545-783 | the pruning walk leaves at the destination exactly the kept files, each with its recorded content or linked to the first path of its inode |
| BackupRestore.RestoredEqualsSource | arq_reader/restore.py:633-650 | restoring a recorded source gives its kept paths and its links by inode number; without a filter every file has its own bytes if and only if linked files with equal inode numbers have equal content |
| BackupRestore.RestoredMeetsPlan | arq_reader/restore.py:786-868 | nothing fails, exactly the source directories the filter descends into are created, the planned number of files is restored, and no more bytes than planned are written |
| BackupRestore.RestoredIsCounted | arq_reader/restore.py:545-868 | the counters are the numbers of files and directories there are, each body written once and counted with its bytes; the plan is the number of files restored and, where links agree, the sum of their lengths |
| BackupRestore.RestoredAsAsked | arq_reader/restore.py:134-172 | restored with given paths, a file is there exactly if one of them is its own or above it, and a directory exactly if it is the root or one of them is its own, above it or below it |
| BackupRestore.BackUp | arq_writer/backup.py:1286-1376 | after a run into a new or used store the root node can be restored from it, given no id collision and no misread length; the run counts every file and directory of the source once, and where links agree its bytes, and the root node keeps those totals and the metadata |
| BackupRestore.RestoreAll | arq_reader/restore.py:545-868 | planning and then restoring such a root, with the tree cache warm, gives the kept source files with their bytes, the directories on the way to the given paths and no others, and counts them as planned |
| BackupRestore.RestoreDamaged | arq_reader/restore.py:545-783 | from a store whose objects are missing or no longer open, whatever is restored is a kept source file with its own bytes, and every kept file left out is reported, itself or through a directory above it |
| BackupRestore.RemainsDescribed | arq_reader/restore.py:334-399 | a store that has lost blobs, but answers nothing else, describes the snapshot with the lost files and directories marked |
| BackupRestore.LaterRunKeepsSnapshot | arq_writer/backup.py:843-924 | what an earlier run recorded is still described by the store a later run leaves |
| BackupRestore.BackUpTwice | arq_writer/backup.py:843-924 | after two runs into one store, both roots can be restored from it |
| BackupRestore.RecordDirs | arq_writer/backup.py:1286-1376 | every directory of the source is recorded, empty ones included, and no other |
| Arqo.FindPositions | arq_validator/crypto.py:252-266 | every occurrence of the magic, in order, and nothing else |
| Arqo.SamePositions | arq_validator/crypto.py:252-266 | only one ascending list can be complete |
| Arqo.VerifyMulti | arq_validator/crypto.py:269-303 | passes and failures add up to the occurrences, and the failing offsets are those whose slice to the next occurrence does not authenticate |
| Arqo.FailingMeans | arq_validator/crypto.py:269-303 | the failing list holds one offset for each object that does not authenticate, the first of them in front |
| PackScan.ReconstructIndex | arq_reader/pack.py:104-183 | the nested search yields the entries that the cuts define, and they tile the pack; a pack that does not start with the magic fails |
| PackScan.FindCut | arq_reader/pack.py:148-171 | the ratcheting search stops at the first magic at a length an object can have, or at the end |
| PackScan.EntriesTile | arq_reader/pack.py:104-183 | for every pack the entries follow one another to its end; each starts with the magic and ends at the first place, 116 bytes and whole cipher blocks on, where the next magic stands, or with the pack; an entry is flagged exactly if its length is not an object's |
| PackScan.OneTiling | arq_reader/pack.py:104-183 | no other list of entries tiles the pack |
| PackScan.IndexExactIff | arq_reader/pack.py:104-183 | on objects packed back to back the index is exact if and only if none holds the magic at a length an object can have |
| PackScan.TornPack | arq_reader/pack.py:170-183 | after whole objects, one torn behind its magic is flagged exactly when the tear is not at a length an object can have |
| PackScan.TornMagic | arq_reader/pack.py:170-183 | after a tear inside the magic the last whole object swallows the one to three bytes left and is flagged |
| PackScan.VerifiersAgree | arq_reader/pack.py:211-225 | on well-formed objects whose starts are the only magics, the multi-object check reports no failure if and only if every slice that reconstruct_index finds passes the single-object check |
| PackScan.ChecksAgreeIff | arq_validator/crypto.py:269-303 | for objects of any length the two checks agree if and only if none is shorter than a header or some object fails |
| PackScan.ShortObjectPasses | arq_validator/crypto.py:269-303 | an object of 36 bytes that the multi-object check passes and the single-object check rejects |
| AuditCore.Classified | arq_validator/tiers.py:524-645 | a file is counted once, in exactly its class: sound, corrupt (read whole, but without the magic or with a failing object), unreadable, or above the cap; a corrupt or unreadable one is reported with the true reason, a sound one recorded as verified; bytes, objects and failing objects are those of the file |
| AuditCore.ComputeFile | arq_validator/tiers.py:524-645 | the worker computes the outcome that Classified describes: stat error, size cap, fetch error, short read, missing magic, failing objects or success |
| AuditCore.Auditor.MergeDelta | arq_validator/tiers.py:648-662 | every counter grows by the delta and its failures are appended |
| AuditCore.Auditor.AuditOneFile | arq_validator/tiers.py:665-772 | writing to the shared result as it goes equals computing the delta and merging it |
| AuditCore.KeepsAccounted | arq_validator/tiers.py:648-662 | total = ok + fail + error + skipped + ledger-skipped is kept by each file |
| Schedule.FoldMeaning | arq_validator/tiers.py:977-1002 | sequentially and without a ledger every file is counted in its class, with its bytes and objects; every corrupt or unreadable file is reported with its reason, and nothing else is |
| Schedule.FoldSettles | arq_validator/tiers.py:977-1002 | with or without a ledger, every file the sequential driver has reached is sound, above the cap, in the ledger or reported, and nothing untrue is reported |
| Schedule.FoldLedger | arq_validator/tiers.py:977-1002 | the ledger gains exactly the names of the verified files reached |
| Schedule.StaysOnCourse | arq_validator/tiers.py:1008-1080 | at any point of any schedule, merging all that is in flight would give the sequential totals so far, unless names clash |
| Schedule.ParallelEqualsSequential | arq_validator/tiers.py:1008-1080 | every finished schedule ends with the sequential counters, failures as a multiset, and ledger |
| Schedule.ParallelAgreesIff | arq_validator/tiers.py:1023-1066 | for a family of any size, at least one worker and no byte budget, all schedules agree with the sequential run if and only if no file repeats the name of an earlier verified one that the ledger lacked |
| Schedule.ClashShows | arq_validator/tiers.py:1023-1066 | for a repeated name, a schedule that skips fewer files by ledger than the sequential run |
| Schedule.AlwaysSane | arq_validator/tiers.py:1008-1080 | after any schedule, cut off or not: at most twice the workers in flight, the counters add up, the ledger gains only names of verified files |
| Schedule.NeverSilent | arq_validator/tiers.py:1008-1080 | after any schedule, cut off or not, every file taken is in flight, sound, above the cap, in the ledger or reported, and nothing untrue is reported |
| Schedule.OvershootBound | arq_validator/tiers.py:878-887 | in parallel the bytes read, with those in flight, stay below the budget plus twice the workers times the largest body |
| Schedule.SequentialOvershoot | arq_validator/tiers.py:977-1002 | sequentially they stay below the budget plus one body |
| FullAudit.BudgetCheck | arq_validator/tiers.py:878-887 | a stop is reported only for a passed deadline or a spent byte budget, and none is missed for bytes |
| FullAudit.RunSequential | arq_validator/tiers.py:977-1002 | the sequential driver is the fold over the files it reached, and it stops only for a budget |
| FullAudit.RunParallel | arq_validator/tiers.py:1008-1080 | the parallel driver follows some schedule, and returns with nothing in flight even when stopped |
| FullAudit.Workers | arq_validator/tiers.py:855-872 | concurrency is clamped to 1..64, and to 1 where the backend cannot read concurrently |
| FullAudit.RunFullAudit | arq_validator/tiers.py:775-1180 | over all backup sets: sets without a key are listed, the totals are the sequential ones (exactly with one worker, up to failure order with more, where names are distinct or there is no ledger), and a stopped run keeps the accounting, the ledger and the byte bound; every failure is true of its file under the key of its set, and a run that was not stopped leaves no file of an opened set unnoticed |
| FullAudit.AllJobsCover | arq_validator/layout.py:48-54 | the files audited are exactly the blobpacks, treepacks, largeblobpacks and standard objects of the sets that can be opened, each under the key of its set |
| FullAudit.KeylessAre | arq_validator/tiers.py:1085-1180 | the sets listed as skipped are exactly those without a key |
| DripWalk.BuildWalk | arq_validator/audit_drip.py:143-156 | the loops produce the walk: computers sorted, families in the fixed order, files sorted |
| DripGaps.WalkCovers | arq_validator/audit_drip.py:143-156 | the walk holds exactly the listed files: the blobpacks, treepacks, largeblobpacks and standard objects of each computer |
| DripWalk.WalkIncreasingIff | arq_validator/constants.py:28-33 | the walk is strictly increasing in the order of its tuples if and only if no computer has treepacks beside largeblobpacks or standardobjects |
| DripSweep.IndexAfterCursor | arq_validator/audit_drip.py:159-183 | the scan returns the first index whose file sorts after the cursor |
| DripSweep.ResumeIff | arq_validator/audit_drip.py:159-183 | resuming from walk[i] gives i + 1 for every i if and only if the walk is strictly increasing |
| DripSweep.SweepsOnce | arq_validator/audit_drip.py:409-497 | over any fires with increasing walks, files coming and going: none is processed twice, and once a fire reaches the end every file present throughout has been processed |
| DripGaps.EveryCutSweepExactIff | arq_validator/audit_drip.py:409-497 | over an unchanging walk, every completed sweep processes each file exactly once wherever it is cut, if and only if the walk is strictly increasing |
| DripGaps.CutAfter | arq_validator/audit_drip.py:409-497 | a sweep cut after file i processes the files up to i and those from the resume index on, which is exact only if that is i + 1 |
| DripGaps.LastTreepackPassesOver | arq_validator/audit_drip.py:159-183 | with the cursor on the last treepack of a computer, the next fire passes over its largeblobpacks and standardobjects |
| DripGaps.LaterFamilyGoesBack | arq_validator/audit_drip.py:159-183 | with the cursor on a largeblobpack or a standard object, the next fire goes back to the treepacks of that computer |
| AuditDrip.DecryptKeysets | arq_validator/audit_drip.py:186-236 | the keysets that open, by computer; KeysetsMeans says whose they are |
| AuditDrip.KeysetsMeans | arq_validator/audit_drip.py:186-236 | each backup set whose keyset opens has its own key, and no other set has any |
| AuditDrip.EffectIsOwn | arq_validator/audit_drip.py:430-444 | a file is audited under the key of its own backup set, or skipped where that set has none |
| AuditDrip.State.Process | arq_validator/audit_drip.py:430-487 | one file is audited under its own set's key or skipped, its share is carried into the sweep counters, and the cursor moves onto it |
| AuditDrip.State.RunFire | arq_validator/audit_drip.py:239-518 | a paused or unauditable fire leaves the sweep alone and says which it was; any other extends it by the files after the cursor, in order, each with its own set's outcome, until its deadline or the end, starting and stamping a new sweep when the last was complete |
| AuditDrip.State.Pause | arq_validator/audit_drip.py:544-555 | only the pause time changes |
| AuditDrip.State.Resume | arq_validator/audit_drip.py:558-564 | only the pause time changes |
| AuditDrip.CountersAddUp | arq_validator/audit_drip.py:454-481 | at any time each counter is the sum over the files processed in this sweep, and the failed list is theirs, capped |
| AuditDrip.CompletedSweepIsExact | arq_validator/audit_drip.py:239-518 | when a fire completes a sweep of increasing walks, no file was processed twice, none present throughout was missed, and the counters count exactly those processed |
| RecordWalk.Walker.CheckLoc | arq_validator/record_validator.py:411-476 | a blob passes if it is good or its id is in the ledger; otherwise one failure with its fault is added; only good blobs enter the ledger |
| RecordWalk.Walker.OpenTree | arq_validator/record_validator.py:317-358 | the children of a decodable tree, as blobs and trees to walk (BlobGraph.ReachableListed says which); a blob that is there but does not decode is reported |
| RecordWalk.Walker.Visit | arq_validator/record_validator.py:281-403 | the visit of one node: a tree seen before changes nothing at all; any other node has exactly its own blobs checked (up to the cap), and its children pushed if its tree blob passes |
| RecordWalk.CheckKeepsEarned | arq_validator/record_validator.py:462-467 | the ledger gains ids of good, checked blobs only |
| RecordWalk.VisitKeepsClosed | arq_validator/record_validator.py:281-403 | after each visit everything owed is covered or still on the stack |
| RecordWalk.ValidateRecord | arq_validator/record_validator.py:176-408 | the walk ends on any finite store, cyclic or not; it checks only blobs of reachable nodes and visits each tree id once; without cap and ledger, where repeated tree nodes carry the same locs, it is ok if and only if every data, xattr, ACL and tree blob the record refers to is good and every tree opens; with a cap at most one blob more is checked; without, the nodes, blobs, failures and ledger are those the rules of the walk determine |
| RecordWalk.CleanMeansIntact | arq_validator/record_validator.py:262-408 | without cap and ledger a clean report means that every reachable file has good blobs and every reachable tree id a good, decodable tree whose own xattr and ACL blobs are good for one of its nodes |
| RecordWalk.CleanIffVisitedGood | arq_validator/record_validator.py:262-408 | without a ledger the report is clean if and only if every blob of every visited node is good and every visited tree opens |
| RecordWalk.CleanIffReachableGood | arq_validator/record_validator.py:262-408 | where repeated tree nodes carry the same locs, a walk without cap and ledger is clean if and only if every blob of every reachable node is good and every reachable tree opens |
| RecordWalk.CleanIffRecordSound | arq_validator/record_validator.py:491-508 | the same over the parsed tree nodes and their fields: clean if and only if every blob the root or a listed child refers to is good and every such tree opens |
| RecordWalk.CleanMeansFilesSound | arq_validator/record_validator.py:491-508 | under a clean report every dataBlobLoc, xattr and ACL loc of every file listed in a reachable tree is good |
| RecordWalk.RepeatedTreeGoesUnchecked | arq_validator/record_validator.py:305-309 | two directories with one tree, of which the one visited last has a missing xattr blob: the report is clean |
| RecordWalk.LossesShowIff | arq_validator/record_validator.py:305-309 | a record is reported rightly whatever blobs are lost if and only if the tree nodes passed over have no blob that is not checked elsewhere |
| RecordWalk.OneRun | arq_validator/record_validator.py:281-403 | the rules leave the walk no choice of nodes or order |
| BlobGraph.ReachableListed | arq_validator/record_validator.py:491-508 | the nodes walked are the root and exactly the children listed in the trees reached |
| DedupWalk.Collect | arq_reader/snapshot_diff.py:351-456 | the worklist ends; it expands trees breadth first, and records the ids met, only ids that the snapshot names through tree, data, xattr and ACL locs of its nodes, and all of them where trees are content-addressed |
| DedupWalk.ExpandedOnce | arq_reader/snapshot_diff.py:391-408 | no tree id is expanded twice |
| DedupWalk.FirstLengths | arq_reader/snapshot_diff.py:378-383 | the length recorded for an id is that of the first loc met with it |
| DedupWalk.CollectsAll | arq_reader/snapshot_diff.py:351-456 | under content addressing everything mentioned is collected |
| DedupWalk.MentionsNamed | arq_reader/snapshot_diff.py:351-456 | the ids counted as mentioned are the non-empty ones in the tree, data, xattr and ACL fields of the root and of every listed child |
| DedupWalk.AddLocsKeys | arq_reader/snapshot_diff.py:364-383 | the first length seen for an id is kept, and empty ids are not recorded |
| DedupWalk.MeasureDedup | arq_reader/snapshot_diff.py:458-481 | counts and bytes are those of what is collected of the two snapshots, the shared bytes by the first one; shared plus unique gives each side, in blobs and, for the first, in bytes |
| DedupWalk.ReportCountsMentions | arq_reader/snapshot_diff.py:458-481 | under content addressing an id is counted as shared, or as unique, exactly if both snapshots, or the first only, mention it |
| SnapshotDiff.Result.Add | arq_reader/snapshot_diff.py:60-62 | the entry is appended and the tallies stay those of the entries |
| SnapshotDiff.Result.Walk | arq_reader/snapshot_diff.py:159-231 | the recursive walk appends the entries of the pruned diff, name by name in sorted order |
| SnapshotDiff.DiffSnapshots | arq_reader/snapshot_diff.py:233-270 | over two root nodes: for trees, an entry for exactly the paths where they can be compared and differ, each saying what became of it, in name order and none twice, with true tallies; for files, one entry if the ids differ |
| SnapshotDiff.DiffExact | arq_reader/snapshot_diff.py:159-231 | added, removed, type-changed and modified are told from what stands at the path in either snapshot, with the sizes and times of either side; no differing path is left out and no other is listed |
| SnapshotDiff.FullExact | arq_reader/snapshot_diff.py:193-210 | where tree ids determine trees, the same holds of all paths, although equal ids are skipped |
| SnapshotDiff.PrunedEqualsFull | arq_reader/snapshot_diff.py:193-210 | where tree ids determine trees, skipping equal ids gives the full diff, entry for entry |
| SnapshotDiff.DiffMeaning | arq_reader/snapshot_diff.py:159-231 | an entry is listed exactly when its path can be reached through shared directories and the two sides differ there |
| SnapshotDiff.SwapMirrors | arq_reader/snapshot_diff.py:159-270 | swapping the snapshots swaps added with removed and the fields of the two sides |
| SnapshotDiff.PathsDistinct | arq_reader/snapshot_diff.py:159-231 | no path is reported twice |
| SnapshotDiff.EntriesOrdered | arq_reader/snapshot_diff.py:159-231 | in the directory where the paths of two entries part, the one listed first goes on under the lesser name |
| SnapshotDiff.CountsEntries | arq_reader/snapshot_diff.py:60-62 | the tally of a kind is the number of its entries |
| Arq5Pack.Fanout | arq_reader/arq5_pack.py:239-246 | the list summed in place holds, for each byte, the number of entries up to it |
| Arq5Pack.BuildPackIndex | arq_reader/arq5_pack.py:230-258 | the entries sorted by SHA-1 in the index layout, with the digest of the body; integers too large to pack fail |
| Arq5Pack.ParsePackIndex | arq_reader/arq5_pack.py:76-137 | the entries of a well-formed index; short, foreign, damaged or overlong input fails |
| Arq5Pack.AcceptedIff | arq_reader/arq5_pack.py:76-137 | an index is accepted exactly if magic, version and digest are right and the counted objects fit; object k is read from the 40 bytes at 1032 + 40 k |
| Arq5Pack.IndexRoundTrip | arq_reader/arq5_pack.py:76-137 | parsing a built index gives the entries sorted by SHA-1, a permutation of the input, and fanout slot i counts those whose first byte is at most i |
| Arq5PackFile.BuildPackFile | arq_reader/arq5_pack.py:261-281 | the pack layout of the data blocks with the digest of the body |
| Arq5PackFile.ParsePackFile | arq_reader/arq5_pack.py:174-227 | the entries of a pack, or a failure for anything malformed or left over |
| Arq5PackFile.AcceptedPack | arq_reader/arq5_pack.py:174-227 | an accepted pack has the right magic, version and digest and as many entries as it announces |
| Arq5PackFile.PackRoundTrip | arq_reader/arq5_pack.py:174-227 | parsing a built pack gives the data back, in order, with null mime types and names |
| Arq5PackFile.SliceReturnsData | arq_reader/arq5_restore.py:254-262 | reading a built pack at the start of an entry, past its 10-byte header, gives its data |
| Arq5Restore.Restore.ScanPacks | arq_reader/arq5_restore.py:200-234 | the table is that of all readable indexes of one computer, later ones prevailing |
| Arq5Restore.Restore.FetchObject | arq_reader/arq5_restore.py:236-262 | a loose object first, else the slice the table names, the table being filled on first need |
| Arq5Restore.PackedObjectsAreFound | arq_reader/arq5_restore.py:236-262 | for a computer whose packs and indexes were built together, every listed SHA-1 is answered with its object and every other fails |
| Arq5Restore.OtherComputersAreMissed | arq_reader/arq5_restore.py:186-202 | the table is filled for one computer only: afterwards a packed object of any computer is found, with its content, if and only if the first one lists it |
| Arq5Restore.SecondComputerIsMissed | arq_reader/arq5_restore.py:186-202 | two computers: the object of the second is found if it is asked about first, and missed otherwise |
| Arq5Wire.BinaryStream.ReadValue | arq_reader/arq5_binary.py:89-148 | each primitive read advances the stream and agrees with its positional description |
| Arq5Wire.ReadRow | arq_reader/arq5_binary.py:89-148 | whatever the sequence of fields and whatever follows, reading what was written gives the values and stops at their end |
| Arq5TreeReader.ParseBlobKey | arq_reader/arq5_binary.py:189-222 | the version-gated key, None for a null SHA-1 |
| Arq5TreeReader.ParseNode | arq_reader/arq5_binary.py:266-331 | the version-gated node; null data keys are dropped |
| Arq5TreeReader.ParseTreeBytes | arq_reader/arq5_binary.py:403-463 | the whole parser agrees with its positional description; nodes and missing nodes become dictionaries in which a later node replaces an earlier one of its name |
| Arq5Tree.ReadKey | arq_reader/arq5_binary.py:189-222 | an encoded key comes back in every version, with defaults for what the version does not store |
| Arq5Tree.ReadNode | arq_reader/arq5_binary.py:266-331 | an encoded node comes back in every version, and the position ends at its end |
| Arq5TreeFile.ReadHeader | arq_reader/arq5_binary.py:370-400 | a three-digit header gives its version, 13 and those below 10 excepted |
| Arq5TreeFile.ParseInvertsWrite | arq_reader/arq5_binary.py:403-463 | for every accepted version and every tree it can store, parsing the encoding followed by anything gives the tree back |
| Arq5TreeFile.UniquelyDecodable | arq_reader/arq5_binary.py:403-463 | equal encodings, even followed by different bytes, mean equal trees |
| Arq5TreeFile.ByNameKeepsAll | arq_reader/arq5_binary.py:453-462 | with distinct names the dictionary keeps every node |
| Arq5TreeFile.KeyedRoundTrip | arq_reader/arq5_binary.py:403-463 | encoding and parsing a tree with distinct names gives dictionaries of exactly its nodes |
| RecordLayout.ListRecords | arq_validator/layout.py:207-230 | the paths of all records, sorted by directory, number and path |
| RecordLayout.ListedExactly | arq_validator/layout.py:207-230 | a path is listed exactly if it is a file named by digits and the suffix, in a directory named by five digits |
| RecordLayout.FindLatest | arq_validator/layout.py:249-280 | a record that none comes after, or none when there is no record |
| RecordLayout.LatestIsLastListed | arq_validator/layout.py:233-280 | the latest record found is the last one listed, ties included |
| RecordLayout.TimeIsKept | arq_writer/backup.py:1542-1552 | before the second 10^12, bucket and number of a record give its time back, and its names are ones the listing accepts |
| RecordLayout.ListedInTimeOrder | arq_writer/backup.py:1542-1552 | two records a folder holds are both listed, and every occurrence of the one created first precedes those of the other |
| EventTail.RunWriter.Emit | arq_tui/runs.py:379-387 | the ring buffer holds the last 50 events, and the file lags by fewer events than the flush count |
| EventTail.RunWriter.Flush | arq_tui/runs.py:473-476 | the file holds the current tail |
| EventTail.Poller.Drain | arq_tui/subprocess_workers.py:299-315 | what is forwarded only grows, in emission order, and an unreadable file is left for the next poll |
| EventTail.NewlySeen | arq_tui/subprocess_workers.py:309-315 | the part of a newer tail past the last index holds events after all those forwarded |
| EventTail.AnyRun | arq_tui/subprocess_workers.py:285-315 | over any interleaving, final flush and poll included: strictly increasing events, none twice, at most 50, and all of them if and only if at most 50 were emitted |
| SftpRetry.Tracker.Record | arq_validator/sftp.py:111-134 | the streak and the total are those of all results recorded |
| SftpRetry.StreakIsSuffix | arq_validator/sftp.py:104-137 | the streak is the length of the longest rate-limited suffix |
| SftpRetry.LimitedCounts | arq_validator/sftp.py:111-134 | the total is the number of rate-limited results |
| SftpRetry.SleepFor | arq_validator/sftp.py:176-188 | no sleep before the first attempt, otherwise the capped exponential wait within its jitter |
| SftpRetry.WaitsBackOff | arq_validator/sftp.py:176-188 | the first wait is the base, each later one the factor times as long, and all are cut at the cap |
| SftpRetry.WaitsGrow | arq_validator/sftp.py:176-188 | later attempts never wait less |
| SftpRetry.RunWithBackoff | arq_validator/sftp.py:566-668 | at most one call more than the attempts, one reconnect exactly when a drop was seen, only rate-limited results retried, sleep bounded both ways, and the error raised exactly when all attempts were rate-limited and the streak has reached the threshold |
| Ordering.SortSorts | arq_validator/audit_drip.py:152-156 | sorting permutes its input and leaves no element above a later one |

## Left out

- Packed-mode writing, reuse of a prior snapshot's tree, the fixed-size chunker and chunkers registered from outside.
- Symlinks, special files, xattr and ACL contents, modes, owners and times at restore, and conflict policies: the
  destination is empty, and metadata is only carried through the tree codec.
- A failed data fetch is modelled as one failure of its file; the exception classes a restore reports under are not.
- A stat that fails after a file's or directory's bytes were read, where the source writes default metadata.
- Single-file records at the root of a backup, and records of skipped files as empty nodes: a skipped entry is left out.
- Restore.Restore.DryRunTree: its count of directories is not related to the restore's, because the dry run also counts
  directories the filter then skips.
- Restore.Restore.CountTree: planning events carry no payload in the model, only their number.
- AuditDrip.State.RunFire: the throttle, the saved file and exceptions raised in the middle of a fire are not modelled.
- FullAudit.RunFullAudit: progress events, throughput and the ledger's time stamps are not modelled; a ledger is a set.
- RecordWalk.ValidateRecord: it starts from the record's root node; deriving the computer from the path, opening the keyset
  and decoding the record are not modelled.
- DedupWalk.Collect: snapshots are read from their root nodes on; a tree that does not open is passed over.
- SnapshotDiff.DiffSnapshots: snapshots are read through their locs beforehand, so a tree blob that cannot be fetched,
  which ends the comparison with an exception, is not modelled.
- Arq5TreeFile.ParseInvertsWrite: the encoder is this project's own, in the parser's field order, as the repository has
  none for Arq 5 trees; a date is its milliseconds, and the conversion to a calendar date is not modelled.
- Arq5Pack.BuildPackIndex: SHA-1 names are raw bytes; hexadecimal text is not modelled.
- Arq 5 commits and the restore of an Arq 5 tree.
- UTF-8 decoding with replacement: text stays bytes, and digit tests are those of ASCII.
- Run status transitions, progress counters and notifications beside the event tail.
- Command lines, terminal screens, plan files, schedules, fingerprint and compatibility reports, and machine information:
  input and output, or lists of checks without an invariant across functions.
