# cDedup, modelled and verified in Dafny

cDedup is a deduplicating backup store. A file is cut into chunks, each chunk that has not been
seen before is packed into a container of up to 4 MiB, an index records for every fingerprint where
its chunk lies and how often it is referred to, and a recipe lists the fingerprints of a version in
order. Restore puts the file together again by one of three strategies, delete counts references
down and compacts containers in place. This project models that system and proves what it is for.

## What the project shows

* **Backup and restore.** After every covered history of sequential writes and deletes, with the
  index saved and loaded again between the tasks, restoring a number gives back exactly the bytes
  that are kept under the number it agrees with modulo 256 (`StoreHistory.HistoryRestores`). A
  version below 256 that has been written and not deleted is therefore restored to its own bytes as
  long as no delete asks for a number from 256 on that reaches another version; a version from 256
  on is restored exactly when the version it leads to has the same bytes
  (`StoreHistory.HistoryGivesBack`). Covered means: chunks shorter than 65536 bytes, no fingerprint
  collision among the chunks, file names that are free, no more than 209715 chunks in one container,
  whose fingerprints fill the list buffer, and an index of at most FILE_CACHE/36 entries. For names
  and buffers `StoreFilling.CoveredExactly` says so in terms of the lengths of the new chunks. One
  invariant couples offsets, bytes, reference counts, reverse lists and recipes
  (`StoreInvariant.Inv`). The program's own runs, with their buffers and files, leave what the
  history says (`RepositoryRuns.RunHistory`).
* **Mixed histories.** Sequential writes, pipeline runs and deletes may alternate in any order
  (`MixedHistory.MixedRestores`), as long as a delete only removes chunks from containers that have
  a reverse list, and without deletes no assumption about names is left
  (`MixedHistory.MixedWritesRestore`).
* **Restoring.** Chunk cache (least recently used), container cache (first in, first out) and
  forward assembly: from an empty repository through any covered history, task by task, each of the
  three gives back the bytes (`RestoreVersion.BackUpAndRestore`), the chunk cache as long as no
  container has received more than 65536 chunks, forward assembly unless the file is empty.
* **The pipeline.** Four threads and three bounded, terminable queues, as a state machine. For files
  of any length every schedule is finite, none gets stuck or uses a null pointer, and all end with
  the chunks of the whole file written one after another exactly when no new chunk is longer than
  the container buffer; otherwise all end in the copy past its end (`PipelineRun.EverySchedule`).
  From one configuration with an average of at most 1 MiB the pipeline and the sequential writer
  leave the same files exactly when it is not FastCDC at level 0
  (`PipelineSettings.PathsAgreeExactly`).
* **Chunking.** The rolling Gear fingerprint as a sum, the 48-byte window of every cut decision, the
  bits every level tests, partition and length bounds, reads that no chunk reaches across, what the
  global average has become, and a sliding buffer that cannot be seen in the result.
* **Full-file deduplication and JSON.** The slot table against a ledger of writes and deletes, within
  the buffer the table is read into. The parser reads every spelling of a document, with any blanks,
  escapes and digits of either case, as the tree it spells (`JsonDocument.AnySpellingParses`), and
  what it accepts is such a spelling (`JsonDocument.OnlySpellingsParse`); what is printed is one, so
  that printing and parsing are inverse up to the nesting limit (`JsonRoundTrip.RoundTrip`).

Where the program does not do what it is meant to do, the model keeps the program's behaviour and
states exactly when it does:

| behaviour | exact condition | input that shows it |
|---|---|---|
| a chunk of 65536 bytes or more does not fit the 16-bit length: it is restored short and deleted in part | `StoreOverlong.WriteRestoredExactly`, `StoreInvariant.RestoreExactly`, `StoreDelete.RemovalExactly` | `StoreOverlong.ZeroFileLost` |
| an index of more than FILE_CACHE/36 entries is not loaded completely, and a version is lost | `MetadataManager.LoadAfterSave`, `StoreIndexFile.ReloadedRestoresAll`, `StoreIndexLimit.FirstWriteReloads` | `StoreIndexLimit.LargeFileLost` |
| a container with more than 65536 chunks has chunks with equal 16-bit numbers, which the chunk cache takes for one another | `StorePlaces.DistinctExactly`, `RestoreVersion.ChunkCacheExactly` | `RestoreVersion.CrowdedConfuses` |
| a version number has eight bits where it is restored or deleted: from 256 on another version answers or goes | `StoreHistory.OwnNumberExactly`, `StoreHistory.DeleteAsAskedExactly` | `StoreVersions.LastBackupLost` |
| the buffer of the reverse list has room for 209715 fingerprints, and a delete moves what lies behind the removed one with one read of CONTAINER_SIZE bytes | `StoreFilling.BuffersHoldExactly`, `StoreDelete.RemovalExactly` | `StoreListLimit.ChainWrittenExactly` |
| a chunk longer than the container buffer is copied past its end | `PipelineRun.EverySchedule` with `PipelineSettings.BufferSufficesExactly`; `StoreFilling.BuffersHoldExactly` | `PipelineSettings.WideChunkCrashes` |
| names continue from file counts, so after a delete a write can run over live files | `StoreNames.WriteConservesBytes`, `StoreNames.WriteAddsVersion` | `StoreNames.DeleteThenWriteOverwrites` |
| files are written over without being cut, so such a version goes on with chunks of the old one | `StoreOverlong.WriteOverVersion` | every version with more chunks than the new one |
| forward assembly does not notice a fingerprint that is missing from the index | `FAA.PiecesAreAssembled` | `AssemblyLoss.AssemblyLosesBlocks` |
| at normalization level 1 the masks are not nested, and a falling average can move a cut later | `FastCDC.MonotoneLevels` | `FastCDC.LevelOneCutsLater` |
| the pipeline saves no reverse lists, which a delete opens to repair the offsets behind a removed chunk | `PipelineDelete.DeleteAfterPipeline` | `PipelineDelete.DeletePipelineVersion`: any version with a new chunk |
| at normalization level 0 the pipeline chunks with masks that are zero, the sequential writer with plain FastCDC | `PipelineSettings.PathsAgreeExactly` | `PipelineSettings.LevelZeroDiffers` |
| full-file scans read past their buffer behind slot 100, dead slots included | `FullFile.InsideBuffer`, `FullFile.HistoryKept` | `FullFile.TooManyFiles`, `FullFile.TooManyDeletes` |
| a storage path with a trailing slash makes full-file restore and delete miss the file | `FullFile.TrailingSlash` | every non-empty file |
| files that agree on their first FILE_CACHE bytes are taken for one file | `FullFile.SecondFileKept` | `FullFile.LongFilesConfused` |
| files of more than 1 GiB come back as their first 1 GiB | `FullFile.LongFileCut` | every such file |
| counts of full-file slots have 32 bits, and the write that counts the 2^32nd use makes the slot dead | `FullFile.HistoryKept` below that | `FullFile.CountWraps` |
| a JSON literal with something that is no hexadecimal digit is taken for the code point 0, which ends the string there | `JsonSpelling.Hex4Exactly` | `JsonSpelling.BadDigitsCut` |
| of a JSON number the first 63 characters are read | `JsonDocument.NumberParses` | `JsonDocument.LongNumberCut` |
| JSON nested deeper than 1000 is printed but not parsed | `JsonRoundTrip.RoundTrip` | `JsonRoundTrip.DeepArray` |

## How it is organised

| file | content |
|---|---|
| `Common.dfy` | constants, records, sequence and map facts |
| `FastCDC.dfy`, `Chunking.dfy` | Gear hash, cut points, the global average size; chunk sequences and the chunk thread's sliding buffer |
| `ZeroRuns.dfy` | zero bytes never pass the masks of level 2 and of plain chunking |
| `MetadataManager.dfy` | index records, the class of the index, load and save |
| `StoreModel.dfy` | the store as a value: write, restore, delete |
| `StoreInvariant.dfy`, `StoreWrite.dfy`, `StoreDelete.dfy`, `StoreHistory.dfy` | the invariant and what every task does to it; histories |
| `StoreIndexFile.dfy`, `StoreIndexLimit.dfy` | the index between two runs, and what the entry limit costs |
| `StoreOverlong.dfy` | chunks that do not fit the length field |
| `StoreWidths.dfy` | after a first write all fields of the index fit |
| `StoreVersions.dfy` | 257 backups, one more than the numbers can tell apart |
| `StoreNames.dfy`, `StoreTotals.dfy` | file names, conservation of bytes |
| `StorePacking.dfy`, `StoreFilling.dfy` | sizes of containers and lists; how the lengths of its new chunks tell which containers a write fills |
| `StorePlaces.dfy`, `StoreCrowding.dfy`, `StoreListLimit.dfy` | chunk numbers inside a container; how many chunks a container receives; the list buffer |
| `ReverseLists.dfy` | the file of a reverse list, byte by byte |
| `CDedup.dfy`, `RepositoryRuns.dfy` | the write and delete tasks with their buffers and files, proved against `StoreModel`; whole histories of them |
| `RestoreCaches.dfy`, `RestoreTask.dfy`, `FAA.dfy`, `RestoreVersion.dfy` | the caches, the restore loops, and restore after any history |
| `AssemblyLoss.dfy` | forward assembly on an index that has lost an entry |
| `Queue.dfy` | the linked-list queue and the synchronized queue |
| `Pipeline.dfy`, `PipelineInvariant.dfy`, `PipelineRun.dfy` | the threads, their invariant, whole runs |
| `PipelineSettings.dfy`, `PipelineRestore.dfy`, `PipelineDelete.dfy` | the pipeline against the sequential writer with one configuration; restore and delete after a pipeline run |
| `MixedHistory.dfy` | sequential writes, pipeline runs and deletes in any order |
| `FullFile.dfy` | the full-file table |
| `Json.dfy` | printing and parsing as functions |
| `JsonSpelling.dfy`, `JsonDocument.dfy` | the spellings of strings and documents, and that the parser reads them and hardly anything else |
| `JsonRoundTrip.dfy`, `JsonProgram.dfy` | what is printed is a spelling; the round trip; the buffer-based program |

Loops and objects of the program are methods and classes here; their contracts equate the new state
with a function of the old one, and the properties are lemmas about these functions.

Assumptions that appear as hypotheses: fingerprints are an abstract function `h` without collisions
among the chunks (or files) of the history at hand (`CollisionFree`, `Writable`); the names a write
takes are free (`FreshNames`), which `StoreNames.WriteStaysBelow` proves for histories without
deletes; its buffers hold what is copied into them (`BuffersHold`); the index a write leaves can be
loaded again (`IndexFits`); files are read and written completely. Each task is one run of the
program: load, operate, save. `StoreModel.Write` is what a write leaves when it stays inside its
buffers, and `StoreModel.Written`, which tasks and histories use, has no result when it does not.

`dafny verify dfyconfig.toml` checks the whole project.

## Model

| member | source | states |
|---|---|---|
| `FastCDC.RollingIsGearSum` | src/fastcdc.cpp:207-225 | the rolling fingerprint over a stretch of bytes is the sum of GEAR[p[i-k]]·2^k modulo 2^64 |
| `FastCDC.GearSumSplit` | src/fastcdc.cpp:207-225 | the sum over a stretch is the sum over its tail plus the head's sum shifted by the tail's length |
| `FastCDC.WrapInvisible` | src/fastcdc.cpp:112-127 | a mask below bit 48 does not see the 64-bit wrap-around |
| `FastCDC.WindowDecides` | src/fastcdc.cpp:112-127 | under a mask below bit 48 the fingerprint test depends on at most the last 48 scanned bytes |
| `FastCDC.MasksFit` | src/fastcdc.cpp:112-127 | every mask fastCDC_init selects lies below bit 48 |
| `FastCDC.LevelBits` | src/fastcdc.cpp:112-130 | plain FastCDC tests 13 bits, and a level n tests 13 + n in front of the average and 13 - n behind it |
| `FastCDC.LevelsEnd` | src/fastcdc.cpp:112-130 | the levels are 0 to 3 |
| `FastCDC.BitAndBits` | src/fastcdc.cpp:210 | the modelled `&` is the bitwise one: bit j of the result is the conjunction of the bits j |
| `FastCDC.BitsDetermine` | src/fastcdc.cpp:210 | numbers with the same bits are equal |
| `FastCDC.BitAndLowBits` | src/fastcdc.cpp:210 | a mask below 2^k gives the same result on numbers that agree modulo 2^k |
| `FastCDC.SubmaskHit` | src/fastcdc.cpp:210 | a fingerprint that is zero under a mask is zero under every mask with a subset of its bits |
| `FastCDC.Cut` | src/fastcdc.cpp:194-273 | a cut is never beyond the buffer or the maximum size, never empty on a non-empty buffer, and never below the minimum while more bytes are there; fixed-size cuts are exact |
| `FastCDC.NextAvg` | src/fastcdc.cpp:199-205 | a call never raises the global average size and keeps it above the minimum |
| `FastCDC.FirstHitIsFirst` | src/fastcdc.cpp:207-225 | the scan stops at the first position from its start whose window passes the mask in force there |
| `FastCDC.CutIsFirstWindowHit` | src/fastcdc.cpp:194-248 | a content-defined cut is the first position from the minimum size on that passes the 48-byte test, or the clamped length when there is none |
| `FastCDC.FirstHitMonotone` | src/fastcdc.cpp:207-225 | with nested masks an earlier switch to the back mask never makes the scan stop later |
| `FastCDC.LowerAverageCutsNoLater` | src/fastcdc.cpp:199-225 | with nested masks a lower average size never moves a cut later |
| `FastCDC.NestedLevels` | src/fastcdc.cpp:118-127 | the masks are nested at levels 2 and 3 and not at level 1 |
| `FastCDC.LevelOneCutsLater` | src/fastcdc.cpp:118-119 | at level 1, for every configured average size, a concrete buffer whose cut moves later when the average falls |
| `FastCDC.MonotoneLevels` | src/fastcdc.cpp:118-127 | lowering the average never moves a cut later, on any buffer, if and only if the level is not 1 |
| `FastCDC.Globals.FSC` | src/fastcdc.cpp:251-273 | fixed-size chunking returns the specified cut |
| `FastCDC.Globals.FastCDCWithNC` | src/fastcdc.cpp:194-228 | the two scanning loops and the changed global compute the specified cut and the specified new average |
| `FastCDC.Globals.FastCDCWithoutNC` | src/fastcdc.cpp:234-248 | the single loop computes the specified cut |
| `FastCDC.Globals.Chunking` | main.cpp:263-288 | the configured chunker computes the specified cut and new average |
| `ZeroRuns.ZerosNeverPass` | src/fastcdc.cpp:207-225 | a run of zero bytes of any length passes neither mask of level 2 nor the plain one |
| `ZeroRuns.ZerosCut` | src/fastcdc.cpp:194-248 | when the bytes that are scanned are zeros, the chunk is as long as buffer and maximum size allow |
| `Chunking.ChunksPartition` | main.cpp:435-491 | the chunks of a buffer concatenate to it, none is empty or above the maximum size, and the average never rises over the whole run |
| `Chunking.ChunksLongEnough` | src/fastcdc.cpp:194-273 | all chunks of a buffer but the last reach the minimum size, and fixed-size ones reach it exactly |
| `Chunking.FileChunksPartition` | main.cpp:423-491 | the chunks of a file of any length, read in FILE_CACHE pieces, concatenate to the file |
| `Chunking.OneReadFirst` | main.cpp:423-437 | the first FILE_CACHE bytes of a longer file are chunked on their own, and the rest as a file with the average size they have left |
| `Chunking.WholeReadsFirst` | main.cpp:423-491 | so are the bytes of any number of whole reads |
| `Chunking.ReadsEndChunks` | main.cpp:423-491 | every multiple of FILE_CACHE inside a file is the end of one of its chunks |
| `Chunking.AvgAfterExactly` | src/fastcdc.cpp:199-205 | after a buffer the global average is the least of what it was and of the lengths above the minimum size that were left where a chunk began |
| `Chunking.SmallFileIsOneBuffer` | main.cpp:423-491 | a file of at most FILE_CACHE bytes is chunked as one buffer |
| `Chunking.FullBufferCuts` | src/pipeline_chunk.cpp:44-61 | once the buffer holds a maximum-size chunk, bytes still to come change neither the cut nor the new average |
| `Chunking.CutPending` | src/pipeline_chunk.cpp:44-66 | cutting the buffer yields the first chunk of everything that is left of the file |
| `Chunking.Receive` | src/pipeline_chunk.cpp:47-50 | moving the unread bytes to the front and appending a block leaves unread bytes followed by the block, within the allocated buffer |
| `Chunking.Refill` | src/pipeline_chunk.cpp:44-54 | refilling keeps unread bytes plus unread blocks, and ends with a full-size buffer or the end of the file |
| `Chunking.ChunkThread` | src/pipeline_chunk.cpp:13-78 | for every split into blocks of at most 1 MiB the chunks, and the global average left behind, are those of the whole file |
| `MetadataManager.RecordRoundTrip` | src/MetadataManager.cpp:22-27 | a 36-byte record decodes to the entry it was encoded from |
| `MetadataManager.RecordLayout` | src/MetadataManager.cpp:51-64 | the 36 bytes of a record, field by field, least significant byte first |
| `MetadataManager.LittleEndianRoundTrip` | src/MetadataManager.cpp:22-27 | integers survive their little-endian encoding |
| `MetadataManager.ParsePrefix` | src/MetadataManager.cpp:18-27 | the first n records of an index file are the first n records that were written |
| `MetadataManager.LoadAfterSave` | src/MetadataManager.cpp:10-67 | whatever the order of iteration, loading a saved table gives the table back if and only if it has at most FILE_CACHE/36 entries |
| `MetadataManager.ShiftEachIsShiftOffsets` | main.cpp:198-211 | repairing offsets one by one along a reverse list equals repairing them all at once |
| `MetadataManager.SubWraps` | src/MetadataManager.cpp:118-133 | an offset is diminished modulo 2^32 |
| `MetadataManager.Manager.constructor` | include/MetadataManager.h:48-52 | both tables start empty |
| `MetadataManager.Manager.Load` | src/MetadataManager.cpp:10-33 | the loop over the file builds the table the records describe, the first of equal fingerprints winning |
| `MetadataManager.Manager.WriteTable` | src/MetadataManager.cpp:51-64 | one table's entries are appended once each, in any order |
| `MetadataManager.Manager.Save` | src/MetadataManager.cpp:35-67 | the file lists exactly the union of both tables; it loads back if and only if it fits |
| `MetadataManager.Manager.DedupLookup` | src/MetadataManager.cpp:69-81 | a fingerprint is a duplicate exactly when one of the tables has it |
| `MetadataManager.Manager.AddNewEntry` | src/MetadataManager.cpp:83-88 | a new entry goes to the added table |
| `MetadataManager.Manager.AddRefCnt` | src/MetadataManager.cpp:90-98 | exactly one entry gains one reference, an added one before a loaded one |
| `MetadataManager.Manager.DecRefCnt` | src/MetadataManager.cpp:100-111 | a loaded entry loses one reference and disappears with the last one; others are not touched |
| `MetadataManager.Manager.GetEntry` | src/MetadataManager.cpp:113-115 | a known entry is returned unchanged; an unknown one becomes a zero entry |
| `MetadataManager.Manager.ChunkOffsetDec` | src/MetadataManager.cpp:118-133 | an offset behind the gap moves by the gap's length; an unknown fingerprint is reported |
| `StoreModel.Position` | main.cpp:199-207 | the position found on a reverse list is the last one that holds the fingerprint, and there is none exactly when it is not listed |
| `StoreInvariant.EmptyStoreInv` | main.cpp:330-505 | the empty store satisfies the invariant |
| `StoreInvariant.RecipesIndexed` | main.cpp:705-714 | every fingerprint of a live recipe is in the index, so the restore and delete loops never meet a missing one |
| `StoreInvariant.NoRecipeNoEntry` | main.cpp:292-295 | without recipes the index is empty, so not loading it loses nothing |
| `StoreInvariant.AllRefsSplit` | main.cpp:705-722 | the references of all recipes are those of one recipe plus those of the others |
| `StoreInvariant.SliceIsContent` | main.cpp:136-163 | an entry points at its own chunk's bytes, cut to the 16-bit length |
| `StoreInvariant.AssembleIsCat` | main.cpp:580-609 | assembling a recipe concatenates the stored chunks in order |
| `StoreInvariant.StoredLength` | include/MetadataManager.h:24-30 | truncated lengths lose bytes exactly when some chunk of the list is 65536 bytes or longer |
| `StoreInvariant.RestoreExactly` | main.cpp:580-609 | under every number that leads to a live version its bytes come back if and only if all its chunks are shorter than 65536 bytes |
| `StoreWrite.ChunkKeepsInv` | main.cpp:435-491 | one chunk keeps counts, offsets, bytes and reverse lists consistent, whether it is new, a duplicate, or starts a container |
| `StoreWrite.ChunksKeepInv` | main.cpp:435-491 | a run of chunks keeps the invariant and extends the recipe by exactly their bytes |
| `StoreWrite.WriteKeepsInv` | main.cpp:423-503 | a write keeps the invariant, adds the file as the next version and leaves the others alone |
| `StoreWrite.ChunksNames` | main.cpp:141-149 | the container number never falls during a write |
| `StoreDelete.LaidCut` | main.cpp:165-211 | after a chunk is cut out of a container the rest lies end to end from offset 0 |
| `StoreDelete.LayoutAfterCut` | main.cpp:165-222 | every container is still tiled after the cut and the offset repairs |
| `StoreDelete.ChunkRemoval` | main.cpp:165-222 | removing a chunk, of a reverse list of any length and a container that goes through the buffer, succeeds, keeps all containers tiled, and container and reverse list disappear together exactly when it was the last chunk |
| `StoreDelete.RemovalExactly` | main.cpp:165-222 | the removal succeeds and leaves tiled containers if and only if the chunk's length fits 16 bits, and container and reverse list both go through the buffer, with one read in front of and one behind what is cut out |
| `StoreDelete.ListCutExactly` | main.cpp:165-222 | a list of several chunks goes through the buffer if and only if at most 209715 stand in front of the removed one and at most as many behind it |
| `StoreDelete.ContainerCutExactly` | main.cpp:165-186 | a container goes through if and only if neither the stretch nor what is in front of it or behind it exceeds 4 MiB |
| `StoreDelete.DropKeepsInv` | main.cpp:705-722 | with reverse lists of at most 209715 fingerprints one step of the delete loop never fails while the reference is counted, and counts one reference less |
| `StoreDelete.DropAllIsFree` | main.cpp:165-222 | while every list has at most 209715 fingerprints, cutting one out of the list file is cutting it out of the list, over a whole delete |
| `StoreDelete.FreeDropAllKeepsInv` | main.cpp:705-722 | apart from the limits of the list buffer, the delete loop succeeds with lists of any length |
| `StoreDelete.DropAllKeepsInv` | main.cpp:705-722 | with such lists the delete loop succeeds on a recipe that may repeat fingerprints, honours all remaining references and leaves no longer list |
| `StoreDelete.DeleteKeepsInv` | main.cpp:690-728 | deleting a number keeps the invariant and the bounds on containers and lists, removes the version of its lowest eight bits, and keeps every other; an unknown number changes nothing |
| `StoreHistory.StepKeepsInv` | main.cpp:291-728 | every admissible task succeeds, keeps the invariant for the versions the program keeps and the bounds on containers and lists, and leaves an index that can be loaded again |
| `StoreHistory.RunKeepsInv` | main.cpp:291-728 | every admissible history succeeds and ends in a store that satisfies the invariant for the versions the program keeps, within the bounds, with a loadable index |
| `StoreHistory.RunsIsRun` | src/MetadataManager.cpp:10-67 | a history with the index saved and loaded between its tasks, in any order of the records, is the history on the index itself |
| `StoreHistory.RunsExists` | main.cpp:291-728 | an admissible history can be gone through with some index loaded after every task |
| `StoreHistory.NumbersWrap` | main.cpp:74-94 | in every store n + 256k is restored and deleted as n is, and below 256 a number is the name of its own recipe |
| `StoreHistory.HistoryRestores` | main.cpp:291-728 | every admissible history has a run, and after each of them, with the index saved and loaded after every task, restoring a number n below 256, or n + 256k, gives exactly the bytes that are kept under n, and nothing if there are none |
| `StoreHistory.OwnNumberExactly` | main.cpp:74-82 | a live version is restored under its own number if and only if the number is below 256 or the version its lowest eight bits lead to is live and has the same bytes |
| `StoreHistory.DeleteAsAskedExactly` | main.cpp:690-728 | a delete removes the version of the number asked for and no other if and only if the number is below 256, or neither it nor the number of its lowest eight bits is live |
| `StoreHistory.RunAsAsked` | main.cpp:690-728 | when every delete of a history touches only what it is asked for, the program keeps the versions that were written and not deleted |
| `StoreHistory.HistoryGivesBack` | main.cpp:291-728 | after such a history every version written and not deleted is restored under its own number if and only if the number is below 256 or leads to a live version with the same bytes |
| `StoreVersions.TinyStep` | main.cpp:330-505 | the i-th of a row of different two-byte backups leaves a store given in closed form |
| `StoreVersions.LastBackupLost` | main.cpp:74-94 | after 257 such backups a restore of 256 gives back the backup 0, and a delete of 256 succeeds and removes the backup 0, which is then not restored any more |
| `StoreIndexFile.FittingReloads` | src/MetadataManager.cpp:10-67 | an index with at most FILE_CACHE/36 entries whose fields fit their widths comes back as it was saved |
| `StoreIndexFile.ReloadsItself` | src/MetadataManager.cpp:10-67 | for such an index there is an order of its entries, and it comes back from that file |
| `StoreIndexFile.DeleteFits` | main.cpp:690-728 | a delete never makes an index too large for its file |
| `StoreIndexFile.ReloadedRestoresAll` | src/MetadataManager.cpp:10-33 | after the index has been saved and loaded every live version comes back if and only if the index has at most FILE_CACHE/36 entries |
| `StoreIndexLimit.KeysAdded` | main.cpp:435-491 | a write adds to the index the fingerprints of its chunks and nothing else |
| `StoreIndexLimit.FirstWriteReloads` | src/MetadataManager.cpp:10-33 | with fewer than 2^32 chunks the first version is restored by the next run if and only if its chunks have at most FILE_CACHE/36 different fingerprints |
| `StoreWidths.FirstWriteFits` | include/MetadataManager.h:24-30 | after a first write of fewer than 2^32 chunks all fields of the index fit their widths |
| `StoreIndexLimit.FixedFile` | src/fastcdc.cpp:251-255 | 512-byte chunking of a file of any length does not depend on the FILE_CACHE reads |
| `StoreIndexLimit.LargeFileLost` | src/MetadataManager.cpp:10-33 | a file of FILE_CACHE/36 + 1 different 512-byte blocks that is written and that the next run cannot restore |
| `StoreOverlong.WriteRestoredExactly` | main.cpp:454-609 | a file just written is restored under its number if and only if, below 256, all its chunks are shorter than 65536 bytes, and from 256 on the older version that answers has the same bytes |
| `StoreOverlong.OthersAsBefore` | main.cpp:580-609 | under every other number a write changes nothing that is restored |
| `StoreOverlong.WriteOverVersion` | main.cpp:57-72 | a version written under the number of a live one with more chunks goes on with its last chunks, and all other recipes stay |
| `StoreOverlong.ZeroFileLost` | main.cpp:454-609 | with an average size of 16384 at level 2, 65536 zero bytes are one chunk, are written, and do not come back |
| `StoreNames.TotalPut` | main.cpp:118-126 | saving under a free name adds its bytes; saving over an existing file loses some |
| `StoreNames.OldTailStays` | main.cpp:118-126 | what is written over a longer file leaves its tail |
| `StoreNames.WriteConservesBytes` | main.cpp:351-503 | a write stores every new byte if and only if none of the container names it takes is in use; how many it takes follows from the lengths of its new chunks |
| `StoreNames.WriteAddsVersion` | main.cpp:57-72 | a write adds a version if and only if the number of recipes is not itself a live version |
| `StoreNames.WriteStaysBelow` | main.cpp:42-72 | in a store whose names are all below the file counts a write, sequential or of the pipeline, takes only free names and ends in such a store |
| `StoreNames.WritesRestore` | main.cpp:423-609 | in a history of writes only that loads its final index and stays inside its buffers, a number below the number of writes is restored to the file of its lowest eight bits, which is its own exactly when it is below 256 or that file has the same bytes; nothing is assumed about names |
| `StoreNames.DeleteThenWriteOverwrites` | main.cpp:57-72 | two writes, a delete and a third write after which the second version is restored with the third one's bytes |
| `StoreTotals.ContainersHoldLiveChunks` | main.cpp:705-722 | in every reachable store the container bytes are the summed lengths of the distinct chunks that live recipes refer to, and no container is empty |
| `StorePacking.ChunksStaySmall` | main.cpp:136-163 | during a write containers stay below CONTAINER_SIZE, so that one read returns a whole container |
| `StorePacking.ChunksHoldLists` | main.cpp:154 | a write that stays inside its buffers saves no list of more than 209715 fingerprints |
| `StoreFilling.ChunksFill` | main.cpp:136-163 | which containers a write fills, and how many chunks each receives, follows from the lengths of the chunks whose fingerprints are not known |
| `StoreFilling.BuffersHoldExactly` | main.cpp:153-154 | container buffer and list buffer hold the chunks of a write if and only if no new chunk is longer than CONTAINER_SIZE and no container receives more than 209715 chunks |
| `StoreFilling.ContainerHoldsExactly` | src/pipeline_dedup.cpp:109-116 | without lists they do if and only if no new chunk is longer than CONTAINER_SIZE |
| `StoreFilling.NamesTaken` | main.cpp:118-151 | the first container name a write leaves alone is the file count plus the number of containers these lengths fill |
| `StoreFilling.CoveredExactly` | main.cpp:118-163 | names and buffers of a write are as the theorems need them if and only if its number and the counted names are free and the lengths fit |
| `StoreFilling.WriteFills` | main.cpp:118-163 | the lists a write saves have the counted lengths, and the old ones stay |
| `StoreHistory.RunStaysSmall` | main.cpp:330-728 | containers stay below CONTAINER_SIZE over a whole history of writes and deletes |
| `StorePlaces.WriteNumbers` | main.cpp:136-163 | a write leaves old entries in their places, and the chunks of every container it fills numbered in the order of its reverse list, modulo 65536 |
| `StorePlaces.UncrowdedExactly` | main.cpp:136-163 | no new list is longer than 65536 if and only if the lengths of the new chunks fill no container with more |
| `StorePlaces.DistinctExactly` | main.cpp:136-163 | places stay distinct over a write if and only if no container it fills receives more than 65536 chunks, counted from the lengths of its new chunks |
| `StorePlaces.DeletePlaces` | main.cpp:690-728 | a delete leaves every remaining entry in its container and under its number |
| `StorePlaces.RunStaysDistinct` | main.cpp:330-728 | over a history in which no container receives more than 65536 chunks places stay distinct |
| `StoreCrowding.ShortPerRead` | main.cpp:423-491 | of the chunks of a file at most one for every FILE_CACHE read is shorter than the minimum size |
| `StoreCrowding.ChunksLeaveRoom` | main.cpp:136-163 | how many chunks a container has received is bounded by its bytes over the minimum size, plus the short ones |
| `StoreCrowding.FilesUncrowded` | main.cpp:136-163 | no container receives more than 65536 chunks of a file whose number of reads plus 4 MiB over the minimum size is at most 65536 |
| `StoreCrowding.CrowdedWrite` | main.cpp:136-163 | with an average size of 12 a concrete file of 65537 blocks of 48 bytes puts them all into one container, and is written |
| `StoreListLimit.ChunksStayInside` | main.cpp:136-163 | as long as bytes and short chunks leave a container fewer than 209716 chunks the list buffer holds them |
| `StoreListLimit.FilesHold` | main.cpp:136-163 | the buffers hold every file whose number of reads plus 4 MiB over the minimum size is at most 209715 |
| `StoreListLimit.ChainWrittenExactly` | main.cpp:154 | with an average size of 72 at level 1 a file of n different links of 19 bytes can be written if and only if n is at most 209715 |
| `ReverseLists.ListRoundTrip` | main.cpp:129-133 | a list is read back from its file, also from a longer one that it has been written over |
| `ReverseLists.ListLayout` | main.cpp:129-133 | the count in four bytes, and the i-th fingerprint at byte 4 + 20i |
| `ReverseLists.ListSaved` | main.cpp:118-134 | saving a list under a name adds it to the lists, whatever was there |
| `ReverseLists.ListCut` | main.cpp:213-221 | writing a smaller count and cutting out one fingerprint, with everything counted behind it read at once, takes it off the list |
| `CDedup.Repository.constructor` | main.cpp:232-295 | a new repository is the empty store |
| `CDedup.Repository.Start` | main.cpp:291-295 | a run loads the index exactly when there is a recipe |
| `CDedup.Repository.SaveContainer` | main.cpp:118-134 | saving the two buffers is the specified save of container and reverse list, the list as count and fingerprints in its file |
| `CDedup.Repository.FlushIfFull` | main.cpp:140-151 | the container is saved and a new one begun exactly when the chunk would reach CONTAINER_SIZE |
| `CDedup.Repository.SaveChunkToContainer` | main.cpp:136-163 | the chunk's bytes follow the container's in the container buffer and its fingerprint the others in the list buffer, and both stay inside when the specification has room |
| `CDedup.Repository.NoteChunk` | main.cpp:463-478 | the entry of the copied chunk and the counters become those of the specified step |
| `CDedup.Repository.StoreUnique` | main.cpp:454-478 | bytes, entry and reverse list of a new chunk become those of the specified step |
| `CDedup.Repository.WriteOneChunk` | main.cpp:439-489 | lookup, then a reference more or a chunk more, is the specified step |
| `CDedup.Repository.WriteSegment` | main.cpp:435-491 | the inner loop writes the chunks of what has been read, which is at most FILE_CACHE bytes |
| `CDedup.Repository.Begin` | main.cpp:344-357 | a write starts from the specified state |
| `CDedup.Repository.WriteReads` | main.cpp:423-492 | the outer loop writes the chunks of the whole file |
| `CDedup.Repository.WriteTask` | main.cpp:330-503 | whenever the specified write has a result, the write task turns the saved files into those of it, and the index too if and only if it fits one load |
| `CDedup.Repository.Finish` | main.cpp:493-503 | the last container, the recipe and the index are saved as specified |
| `CDedup.Repository.DelSeg` | main.cpp:165-186 | a file loses one stretch of bytes, and disappears when it becomes empty; what lies more than CONTAINER_SIZE bytes behind the stretch is lost |
| `CDedup.Repository.ReadRecords` | main.cpp:193-207 | the loop reads the list of a file, one fingerprint after the other |
| `CDedup.Repository.DelRecord` | main.cpp:213-221 | a smaller count and the same cut, on the list file, take one fingerprint off the list |
| `CDedup.Repository.RepairOffsets` | main.cpp:198-211 | the loop over the reverse list repairs exactly the offsets behind the gap and finds the removed chunk |
| `CDedup.Repository.ContainerDelChunk` | main.cpp:188-222 | compaction of the container and of its list file is the specified removal, and fails exactly when that one does |
| `CDedup.Repository.DropOne` | main.cpp:705-722 | one step of the delete loop is the specified step |
| `CDedup.Repository.DropRecipe` | main.cpp:705-722 | the delete loop is the specified run over the recipe |
| `CDedup.Repository.DeleteTask` | main.cpp:690-728 | the delete task turns the saved files into those of the specified delete |
| `RepositoryRuns.RunTask` | main.cpp:291-728 | one run of the program on the files turns them, and the index as it will be loaded, into those of the specified step |
| `RepositoryRuns.RunHistory` | main.cpp:291-728 | a history run by run from a new repository ends with the specified store, its index loaded from the file |
| `RestoreCaches.RecentStep` | src/ChunkCache.cpp:6-27 | how one request changes the list of the most recently requested distinct ids: a hit moves its id to the front, a miss on a full cache drops the oldest |
| `RestoreCaches.RecentNoDup` | src/ChunkCache.cpp:6-27 | that list has no duplicates and names exactly the ids ever requested |
| `RestoreCaches.HitKeeps` | src/ChunkCache.cpp:9-16 | a hit keeps the two maps mutually inverse and in the order of the requests |
| `RestoreCaches.MissKeeps` | src/ChunkCache.cpp:21-25 | so does storing a new chunk |
| `RestoreCaches.EvictKeeps` | src/ChunkCache.cpp:54-57 | so does an eviction, which removes the least recent id |
| `RestoreCaches.OldestIsLast` | src/ChunkCache.cpp:54-57 | the smallest time stamp belongs to the least recently requested id |
| `RestoreCaches.OwnersRequested` | src/ChunkCache.cpp:6-27 | the entry behind a cached id has been requested and has this id, and the last request is among them |
| `RestoreCaches.AnswersExactly` | src/ChunkCache.cpp:6-27 | every run of requests over a set of entries gets the right bytes if and only if entries with one id have the same bytes |
| `RestoreCaches.ChunkCache.constructor` | include/ChunkCache.h:10-15 | an empty cache is valid |
| `RestoreCaches.ChunkCache.LoadChunk` | src/ChunkCache.cpp:29-52 | a chunk is read from its slice of its container |
| `RestoreCaches.ChunkCache.EvictChunkLRU` | src/ChunkCache.cpp:54-57 | exactly the least recently requested id goes |
| `RestoreCaches.ChunkCache.GetChunkData` | src/ChunkCache.cpp:6-27 | after any requests the cache holds exactly the K most recently requested distinct ids, each with the slice of the entry it was loaded for, and its maps are inverse; the answer is the slice of the entry behind the id |
| `RestoreCaches.NewestStep` | src/ContainerCache.cpp:6-19 | how a load changes the list of the last K loaded containers |
| `RestoreCaches.ContainerCache.constructor` | src/ContainerCache.cpp:6-19 | an empty cache is valid |
| `RestoreCaches.ContainerCache.EvictContainerFIFO` | src/ContainerCache.cpp:38-44 | the oldest container leaves queue, set and map together |
| `RestoreCaches.ContainerCache.LoadContainer` | src/ContainerCache.cpp:21-36 | a container enters queue, set and map together |
| `RestoreCaches.ContainerCache.GetChunkData` | src/ContainerCache.cpp:6-19 | queue, set and map hold the same distinct containers, the last K loaded; a container is loaded exactly when it is not among them; the answer is the direct slice |
| `RestoreTask.GetChunkData` | main.cpp:573-591 | either cache answers with the direct slice |
| `RestoreTask.Gather` | main.cpp:597-604 | file plus assembling buffer grow by exactly the chunk, and the buffer never overflows |
| `RestoreTask.RestoreThroughCache` | main.cpp:580-609 | the output is the in-order concatenation of the recipe's slices, and the program stops exactly when a fingerprint is not in the index |
| `FAA.PiecesAreAssembled` | main.cpp:627-675 | forward assembly writes what the caches write if and only if every fingerprint is in the index |
| `FAA.PlanApart` | main.cpp:637-641 | the places of a window's entries do not overlap |
| `FAA.CopyFills` | main.cpp:660-670 | copying one chunk into its place leaves the others as they are |
| `FAA.AllUsed` | main.cpp:648-671 | a window whose entries are all used holds the concatenation of their chunks |
| `FAA.FillWindow` | main.cpp:629-645 | a window takes at least one entry and as many as fit the assembling buffer, at consecutive places |
| `FAA.CopyFromContainer` | main.cpp:660-670 | after a container has been read exactly its entries have been filled in addition |
| `FAA.AssembleWindow` | main.cpp:647-671 | the inner loop ends, loads each distinct container exactly once, and leaves the concatenation in the buffer |
| `FAA.RestoreByAssembly` | main.cpp:627-675 | the output is the in-order concatenation of the chunks of every non-empty recipe |
| `AssemblyLoss.AssemblyLosesBlocks` | main.cpp:627-675 | for the file of FILE_CACHE/36 + 1 blocks, with the index as the next run loads it, the caches stop and forward assembly writes a shorter file |
| `RestoreVersion.InvReadable` | main.cpp:580-675 | in a store with the invariant and small containers every entry points inside a container that one read returns whole, and recipes name entries |
| `RestoreVersion.ChunkIdsDiffer` | include/ChunkCache.h:21-23 | with 32-bit container numbers two entries share a 64-bit chunk id exactly when they share a place |
| `RestoreVersion.ToldApartExactly` | include/ChunkCache.h:21-23 | the ids of a reachable store tell its chunks apart if and only if no two entries share a place |
| `RestoreVersion.ChunkCacheExactly` | src/ChunkCache.cpp:6-27 | the chunk cache answers all requests over a reachable index rightly if and only if no two entries share a place |
| `RestoreVersion.CrowdedConfuses` | src/ChunkCache.cpp:6-27 | the file that crowds a container leaves two chunks with one id and different bytes |
| `RestoreVersion.RoomyHistoryDistinct` | main.cpp:136-163 | an admissible history of files read in few enough pieces ends with distinct places, as the chunk cache needs them |
| `RestoreVersion.HistoryRestorable` | main.cpp:330-728 | after an admissible history every version meets what the restore task needs: for the container cache always, for forward assembly unless it is empty, for the chunk cache when places are distinct |
| `RestoreVersion.Restoring` | main.cpp:544-679 | a restore run that loads the index writes the specified bytes by each of the three strategies, and changes no file |
| `RestoreVersion.BackUpAndRestore` | main.cpp:291-728 | from an empty repository through any admissible history and a restore, all on the files, by each of the three strategies: exactly the bytes kept under the number modulo 256, and when every delete reached only what it was asked for, the version with that number exactly when the number is below 256 or leads to the same bytes |
| `Queue.LinkedQueue.constructor` | src/queue.cpp:5-15 | a new queue is empty |
| `Queue.LinkedQueue.Push` | src/queue.cpp:29-48 | relinking first and last appends one element to the list's contents |
| `Queue.LinkedQueue.Pop` | src/queue.cpp:50-65 | relinking removes and returns the first element; an empty queue gives null and stays |
| `Queue.LinkedQueue.Top` | src/queue.cpp:67-71 | the first element, or null |
| `Queue.LinkedQueue.GetN` | src/queue.cpp:92-104 | the n-th element, or null past the end |
| `Queue.LinkedQueue.Find` | src/queue.cpp:109-122 | the first element that hits, or null when none does |
| `Queue.SyncQueue.constructor` | src/sync_queue.cpp:4-17 | a new queue is empty, open, and bounded as asked |
| `Queue.SyncQueue.Push` | src/sync_queue.cpp:27-51 | one pass through the critical section is the specified attempt; what is handed out and queued is what was accepted, and the bound holds |
| `Queue.SyncQueue.Pop` | src/sync_queue.cpp:56-75 | one pass is the specified attempt; null comes only from a queue that is terminated and empty |
| `Queue.SyncQueue.Term` | src/sync_queue.cpp:81-92 | only the termination flag changes |
| `Queue.OneOperation` | src/sync_queue.cpp:27-92 | one operation loses, repeats and reorders nothing and keeps the bound |
| `Queue.FirstInFirstOut` | src/sync_queue.cpp:27-92 | over any run of operations, with pushes that go on after a wait and a termination, items consumed followed by items queued are the items accepted, in order, and the bound holds |
| `PipelineInvariant.LinkPop` | src/sync_queue.cpp:56-75 | what a thread receives next is what it expects: a start mark first, then data or the end mark |
| `PipelineInvariant.LinkNull` | src/sync_queue.cpp:56-75 | a thread receives null only after the end mark |
| `PipelineInvariant.InitGood` | src/pipeline_read.cpp:50-55 | the state in which the threads are started satisfies the invariant |
| `PipelineInvariant.ReadKeeps` | src/pipeline_read.cpp:11-48 | every move of the reader keeps the invariant |
| `PipelineInvariant.TakeKeeps` | src/pipeline_chunk.cpp:33-54 | taking a block keeps the invariant and the buffer's bound |
| `PipelineInvariant.CutKeeps` | src/pipeline_chunk.cpp:56-69 | cutting a chunk keeps the chunks that are still to be written |
| `PipelineInvariant.CutterKeeps` | src/pipeline_chunk.cpp:13-78 | every move of the chunker keeps the invariant |
| `PipelineInvariant.HashTakes` | src/pipeline_hash.cpp:12-27 | taking and fingerprinting a chunk keeps the invariant |
| `PipelineInvariant.HashGives` | src/pipeline_hash.cpp:14-29 | passing it on, or terminating, keeps the invariant |
| `PipelineInvariant.DedupTakes` | src/pipeline_dedup.cpp:81-134 | consuming an item keeps the writer on its way to the sequential result, or copies a chunk past the container buffer that the sequential result cannot hold either |
| `PipelineInvariant.FireKeeps` | src/pipeline_dedup.cpp:71-150 | every move of every thread keeps the invariant, so that nothing is dereferenced that is null and no assertion fails, or overruns the container buffer when some new chunk of the file does not fit it |
| `PipelineRun.FireDecreases` | src/sync_queue.cpp:27-92 | every move decreases a measure over unread bytes, queue contents and thread phases |
| `PipelineRun.ExecKeeps` | src/sync_queue.cpp:27-92 | every schedule keeps the invariant, or has overrun the container buffer, and is no longer than the measure allows |
| `PipelineRun.PendingBounded` | src/pipeline_read.cpp:50-55 | in every reachable state at most 20 blocks, 200 chunks and 200 fingerprinted chunks wait, at most 20 MiB behind the reader, and the chunk buffer holds at most 1 MiB more than four times the average size |
| `PipelineRun.NoDeadlock` | src/sync_queue.cpp:27-75 | in every reachable unfinished state some thread can move |
| `PipelineRun.NothingRemains` | src/pipeline_dedup.cpp:89-93 | when the last thread has seen the end mark nothing is left anywhere before it |
| `PipelineRun.TwinWrites` | src/pipeline_dedup.cpp:52-134 | the pipeline's writer and the sequential one differ in the reverse lists only |
| `PipelineRun.SomeSchedule` | main.cpp:305-319 | from every reachable state some schedule runs to the end, regular or overrun, and there nothing can move |
| `PipelineRun.EverySchedule` | src/pipeline_dedup.cpp:71-150 | for files of any length every schedule ends after at most 6 moves a byte plus 19; if and only if no new chunk is longer than the container buffer all threads have stopped, with index, containers and recipes of writing the chunks of the whole file one after another; otherwise the buffer has been overrun |
| `PipelineRun.ScheduleExists` | main.cpp:305-319 | for every file some schedule ends |
| `PipelineSettings.PipelineResult` | src/pipeline_chunk.cpp:80-102 | when both chunkers cut a file of at most FILE_CACHE bytes alike, with chunks that fit a container, every schedule leaves the index, containers and recipes of the sequential writer |
| `PipelineSettings.Accepted` | src/pipeline_chunk.cpp:80-102 | which configurations each writer works with, and that except at level 0 those of both give the same chunker |
| `PipelineSettings.LevelZeroDiffers` | src/pipeline_chunk.cpp:93-97 | at level 0 the two writers leave different recipes for a quarter of the average size plus one zero bytes |
| `PipelineSettings.PathsAgreeExactly` | main.cpp:263-289 | with one configuration of chunks that fit a container, both writers leave the same index, containers and recipes for all files up to FILE_CACHE bytes that the sequential one can write and all schedules, if and only if it is not FastCDC at level 0 |
| `PipelineSettings.BufferSufficesExactly` | src/pipeline_dedup.cpp:109-116 | the container buffer of the pipeline suffices for a file if and only if no new chunk is longer than CONTAINER_SIZE |
| `PipelineSettings.WideChunkCrashes` | src/pipeline_dedup.cpp:109-116 | with an average of 2 MiB at level 2, 8 MiB of zeros overrun it under every schedule |
| `PipelineRestore.PipelineWriteRestores` | src/pipeline_dedup.cpp:71-150 | after any admissible history and a pipeline run on a file of any length under any schedule, the new file and every older live version are restored exactly, with the index saved and loaded again |
| `PipelineDelete.DropAllShadow` | main.cpp:188-222 | without some of the reverse lists, and apart from the limits of the list buffer, the delete loop finds every list it opens if and only if every chunk that loses its last reference lies in a container that has one, and then does what it does with all lists |
| `PipelineDelete.DeleteShadow` | main.cpp:690-728 | so does the delete of a live version, with lists that fit the buffer, and all other versions are then still restored |
| `PipelineDelete.DeleteAfterPipeline` | main.cpp:690-728 | after a covered history and a pipeline run the delete of a version, old or new, finds every reverse list it opens if and only if every chunk that loses its last reference lies in a container of a sequential write; all other versions are then still restored |
| `PipelineDelete.DeletePipelineVersion` | main.cpp:690-728 | the delete of the version a pipeline run has just written finds every reverse list it opens if and only if all its chunks were known before, or its number is 256 or more, so that an older version goes instead |
| `PipelineDelete.ScheduleThenDelete` | src/pipeline_dedup.cpp:52-69 | so it is after every schedule of the threads, for a file of any length |
| `MixedHistory.PipelinedIsPipeline` | src/pipeline_dedup.cpp:71-150 | a pipeline run in a mixed history is what the threads leave under every schedule, with no result when the buffer is overrun |
| `MixedHistory.WriteShadow` | main.cpp:118-163 | a write, with or without lists, on a store that lacks some lists leaves what a write under the same names on the store with all lists leaves, except for lists |
| `MixedHistory.MixedStepKeeps` | main.cpp:291-728 | every covered sequential write, pipeline run or delete succeeds and keeps the invariant of the store with all lists and the bounds on the lists there are |
| `MixedHistory.MixedRunKeeps` | main.cpp:291-728 | so does every covered mixture of them |
| `MixedHistory.MixedRestores` | main.cpp:291-728 | after every covered mixture a number gives back exactly the bytes kept under it modulo 256, also when the index has been saved and loaded |
| `MixedHistory.MixedWritesRestore` | main.cpp:291-728 | after backups of both kinds in any order, without deletes and with nothing assumed about names, a number gives back the file of its lowest eight bits |
| `FullFile.FindLive` | src/full_file_deduplicater.cpp:45-69 | the slot found is the first live one with the fingerprint |
| `FullFile.HashesAlikeExactly` | src/full_file_deduplicater.cpp:26-40 | two files have the same fingerprint under every hash function if and only if they agree on their first 256 MiB |
| `FullFile.InsideBuffer` | src/full_file_deduplicater.cpp:45-51 | a scan looks at no more than n slots if and only if the table has no more or the hit is among the first n |
| `FullFile.FullFileDeduplicater.constructor` | include/full_file_deduplicater.h:27-33 | a run starts with the number of slots on disk and no current file |
| `FullFile.FullFileDeduplicater.SameHash` | src/full_file_deduplicater.cpp:50-52 | the byte loop decides equality of fingerprints |
| `FullFile.FullFileDeduplicater.Scan` | src/full_file_deduplicater.cpp:45-62 | when it stays inside its buffer of 100 slots, the loop finds the first live slot with the fingerprint |
| `FullFile.FullFileDeduplicater.ScanAndInsertHash` | src/full_file_deduplicater.cpp:45-69 | a known file is counted once more, a new one gets the next slot |
| `FullFile.FullFileDeduplicater.ScanAndDeleteHash` | src/full_file_deduplicater.cpp:71-92 | a known file is counted once less; an unknown one changes nothing |
| `FullFile.FullFileDeduplicater.WriteFile` | src/full_file_deduplicater.cpp:124-131 | the run turns table and directory into those of the specified write |
| `FullFile.FullFileDeduplicater.DeleteFile` | src/full_file_deduplicater.cpp:162-170 | the run turns table and directory into those of the specified delete |
| `FullFile.FullFileDeduplicater.RestoreFile` | src/full_file_deduplicater.cpp:114-119 | the run writes the specified bytes |
| `FullFile.RunTasks` | main.cpp:242-262 | the runs of a history, each on the files of the one before, leave the specified table and directory |
| `FullFile.LiveHashesDiffer` | src/full_file_deduplicater.cpp:45-69 | live slots never share a fingerprint |
| `FullFile.WriteAgrees` | src/full_file_deduplicater.cpp:45-131 | a write stays inside its buffer if and only if the ledger says so, and then changes table and directory as the ledger says |
| `FullFile.DeleteAgrees` | src/full_file_deduplicater.cpp:71-170 | so does a delete, of a live number or any other |
| `FullFile.HistoryKept` | src/full_file_deduplicater.cpp:45-170 | all scans of a history stay inside their buffers if and only if at most 100 slots exist when each runs, or it hits one of the first 100; then each count is writes minus deletes since its slot was created, live slots differ, and a number gives back its file exactly while it is live |
| `FullFile.RunAndRestore` | main.cpp:242-262 | such a history run by run and then a restore: the file exactly while its number is live |
| `FullFile.FewNumbersInside` | src/full_file_deduplicater.cpp:45-92 | a history that gives out at most 100 numbers stays inside |
| `FullFile.TooManyFiles` | src/full_file_deduplicater.cpp:45-62 | n different files can be written if and only if n is at most 101 |
| `FullFile.TooManyDeletes` | src/full_file_deduplicater.cpp:71-92 | one file can be written and deleted again n times if and only if n is at most 100, since dead slots are never taken back |
| `FullFile.NumbersNotReused` | src/full_file_deduplicater.cpp:45-170 | over any tasks a slot keeps its fingerprint, a dead slot stays dead, and what is stored under a number is never replaced |
| `FullFile.LongFileCut` | src/full_file_deduplicater.cpp:114-145 | a written file comes back as its first 1 GiB, so whole if and only if it is no longer |
| `FullFile.CountWraps` | src/full_file_deduplicater.cpp:10-24 | the write that counts the 2^32nd use of a file makes its slot dead, and the next one stores it again |
| `FullFile.OverKeepsTail` | src/full_file_deduplicater.cpp:134-146 | writing over a stored file does not cut it |
| `FullFile.TrailingSlash` | src/full_file_deduplicater.cpp:148-159 | a live file is restored if and only if the path has no trailing slash or the file is empty; with the slash deletes change nothing, and stay inside the buffer up to 100 slots |
| `FullFile.SecondFileKept` | src/full_file_deduplicater.cpp:45-131 | the second of two files is given back if and only if its fingerprint differs from the first one's or it is the same file |
| `FullFile.LongFilesConfused` | src/full_file_deduplicater.cpp:26-40 | of two files that agree on their first FILE_CACHE bytes the second is counted as the first and given back as it |
| `JsonRoundTrip.RoundTrip` | utils/cJSON.c:1312-1825 | parsing the printed text, formatted or not, gives back the tree if and only if it is nested no deeper than the limit, also when nothing may follow the value |
| `JsonRoundTrip.PrintedSpells` | utils/cJSON.c:1367-1825 | what is printed, formatted or not, is a proper spelling of the tree |
| `JsonRoundTrip.NumberPrinted` | utils/cJSON.c:545-612 | a printed int is spelled without leading zeros |
| `JsonRoundTrip.FormatAddsBlanks` | utils/cJSON.c:1539-1825 | formatted and unformatted texts differ in blanks only, and the latter has none between its parts |
| `JsonDocument.AnySpellingParses` | utils/cJSON.c:1064-1140 | every text that spells a document, with a byte order mark or blanks in front, is parsed to its tree unless it is nested too deeply; what follows is passed over, or rejected when nothing but blanks may follow |
| `JsonDocument.OnlyValuesParse` | utils/cJSON.c:1312-1364 | whatever is parsed as a value is spelled as a document of that value nested within the limit, apart from loosely spelled strings |
| `JsonDocument.OnlySpellingsParse` | utils/cJSON.c:1079-1140 | a C string that is parsed spells a document of that tree, behind a byte order mark or blanks, and when nothing may follow only blanks do |
| `JsonRoundTrip.DeepArray` | utils/cJSON.c:1441-1451 | nested arrays come back up to 1000 deep, and those 1001 deep do not |
| `JsonDocument.ValueParses` | utils/cJSON.c:1312-1364 | every spelling of a value, anywhere in the buffer, is parsed to the value and the position behind it, up to the nesting limit |
| `JsonDocument.ArrayParses` | utils/cJSON.c:1441-1536 | so is every spelling of an array |
| `JsonDocument.ObjectParses` | utils/cJSON.c:1601-1711 | so is every spelling of an object |
| `JsonSpelling.StringParses` | utils/cJSON.c:773-899 | every spelling of a string, each character raw, as one of the eight short escapes, or in literals with digits of either case, is parsed to the string |
| `JsonSpelling.EndPassesAll` | utils/cJSON.c:786-808 | the scan for the closing quote passes over every spelled character |
| `JsonSpelling.UnescapeAll` | utils/cJSON.c:820-874 | undoing the escapes gives what they spell |
| `JsonSpelling.Unescape2Exactly` | utils/cJSON.c:833-857 | a letter makes a short escape if and only if it is one of the eight of section 7 of RFC 8259, and stands for its character |
| `JsonSpelling.HexValueExactly` | utils/cJSON.c:615-649 | a byte is read as a hexadecimal digit if and only if it is one of either case, with its value |
| `JsonSpelling.Hex4Exactly` | utils/cJSON.c:615-649 | four digits are read as the number they spell, and anything else as 0 |
| `JsonSpelling.BadEscapeRejected` | utils/cJSON.c:820-874 | a string with another letter behind a backslash, or with a lone surrogate, is rejected |
| `JsonSpelling.BadDigitsCut` | utils/cJSON.c:615-649 | a literal with something that is no digit ends the string there |
| `JsonSpelling.OnlyStringsParse` | utils/cJSON.c:773-899 | whatever is parsed as a string is spelled as one, apart from such literals, and the value is what comes before its first NUL |
| `JsonDocument.NumberParses` | utils/cJSON.c:305-379 | every spelling of an int in at most 63 characters is read as the int |
| `JsonDocument.LongNumberCut` | utils/cJSON.c:323-350 | of a longer number the first 63 characters are read |
| `JsonDocument.FractionsLeftOut` | utils/cJSON.c:323-350 | a number that goes on with a fraction or an exponent is not read as an int |
| `JsonSpelling.LiteralDecodes` | utils/cJSON.c:652-770 | every code point of four digits outside the surrogate range comes through its literal as its own UTF-8 bytes; a low surrogate is rejected, and a high one if and only if no literal with a low one follows |
| `JsonSpelling.Utf8RoundTrip` | utils/cJSON.c:715-763 | the bytes written for a code point are its shortest UTF-8 encoding |
| `JsonProgram.EscapedLength` | utils/cJSON.c:929-959 | the space reserved for a string is exactly what its escaped form takes |
| `JsonProgram.ParseBuffer.constructor` | utils/cJSON.c:1109-1112 | a parse buffer starts at offset and depth 0 |
| `JsonProgram.ParseBuffer.SkipWhitespace` | utils/cJSON.c:1038-1061 | the loop moves to the next visible character, or back onto the last one of the buffer |
| `JsonProgram.ParseBuffer.FindQuote` | utils/cJSON.c:786-808 | the scanning loop finds the specified closing quote |
| `JsonProgram.ParseBuffer.CopyUnescaped` | utils/cJSON.c:819-874 | the copying loop yields the specified bytes or fails with them |
| `JsonProgram.ParseBuffer.ParseString` | utils/cJSON.c:773-899 | value and new offset are the specified ones |
| `JsonProgram.ParseBuffer.ParseNumber` | utils/cJSON.c:305-379 | value and new offset are the specified ones, for the integers that fit an int |
| `JsonProgram.ParseBuffer.ParseValue` | utils/cJSON.c:1312-1364 | value, new offset and restored depth are the specified ones |
| `JsonProgram.ParseBuffer.ParseArray` | utils/cJSON.c:1441-1536 | value, new offset and restored depth are the specified ones |
| `JsonProgram.ParseBuffer.ParseItems` | utils/cJSON.c:1473-1513 | the loop over the elements collects the specified list |
| `JsonProgram.ParseBuffer.ParseObject` | utils/cJSON.c:1601-1711 | value, new offset and restored depth are the specified ones |
| `JsonProgram.ParseBuffer.ParseKey` | utils/cJSON.c:1657-1678 | key and position of the value are the specified ones |
| `JsonProgram.ParseBuffer.ParseMembers` | utils/cJSON.c:1632-1689 | the loop over the members collects the specified list |
| `JsonProgram.ParseText` | utils/cJSON.c:1079-1140 | parsing a C string is the specified function |
| `JsonProgram.PrintBuffer.constructor` | utils/cJSON.c:1187-1203 | a print buffer starts empty |
| `JsonProgram.PrintBuffer.CountEscapes` | utils/cJSON.c:929-953 | the loop counts the characters that escapes add |
| `JsonProgram.PrintBuffer.CopyEscaped` | utils/cJSON.c:972-1018 | the loop fills the reserved space with the escaped string |
| `JsonProgram.PrintBuffer.PrintString` | utils/cJSON.c:902-1021 | the escaped string is appended in quotes |
| `JsonProgram.PrintBuffer.PrintValue` | utils/cJSON.c:1367-1438 | the value's text is appended and the depth is restored |
| `JsonProgram.PrintBuffer.PrintArray` | utils/cJSON.c:1539-1598 | the loop over the elements appends the array's text |
| `JsonProgram.PrintBuffer.PrintObject` | utils/cJSON.c:1714-1825 | the loop over the members appends the object's text |
| `JsonProgram.PrintThenParse` | utils/cJSON.c:1175-1250 | printing with the one program and parsing with the other gives the tree back up to the nesting limit |

## Left out

- The Merkle tree (`src/merkle_tree.cpp` and the Merkle branch of the write task) is not modelled: a parent hash covers only its last child there, so its intended theorem does not hold of the code.
- SHA-1 and MD5 are not part of this model; fingerprints are an abstract function with a hypothesis that excludes collisions among the chunks at hand. The MD5 matrix is never read by the chunkers.
- Compression, statistics, timing, printing, configuration and the job record are not modelled, nor is the division by the number of chunks in the statistics of an empty file, which comes after everything has been saved.
- Failing system calls, short reads and partial writes are not modelled: files are maps from numbers to byte sequences, and directories are counted by their entries.
- FastCDC.RollingIsGearSum: the 256 table entries are taken over as data; nothing the program promises determines them.
- FastCDC.Cut: assumes a configured average of at least 4 bytes, because below that the minimum size is 0 and chunks can be empty, and one whose fourfold plus a block fits an int, because from 2^29 - 2^18 bytes on the buffer sizes overflow.
- StoreHistory.HistoryRestores: the names a write takes must be free (`FreshNames`), because the program derives them from file counts, its buffers must hold what is copied into them (`BuffersHold`), chunks must be shorter than 65536 bytes, and the index may have at most FILE_CACHE/36 entries with fields that fit their widths (`IndexFits`), because the program loads no more; `StoreNames`, `StoreFilling`, `StoreOverlong` and `StoreIndexFile` state what happens otherwise. Mixtures with pipeline runs are covered by `MixedHistory`, on the model and not on the files.
- PipelineDelete.DeleteAfterPipeline: what a delete does with a reverse list that is missing (it goes on with the count left over from the chunk before and creates the file) is not modelled, such a delete has no result here.
- CDedup.Repository.WriteTask: what a copy past the end of the container buffer or the list buffer destroys is not modelled, such a write has no result here (`StoreModel.Written`). The widths of index fields other than the chunk length and the number inside the container enter only through `AllFit`, when the index is saved.
- CDedup.Repository.ContainerDelChunk: what a delete leaves when a container or a list file does not go through the buffer, is missing, or does not hold the chunk is not modelled, such a delete has no result here.
- MetadataManager.Manager.AddRefCnt: the source compares an iterator of one table with the end of the other; the model takes the intended test.
- RestoreCaches.ChunkCache.GetChunkData: time stamps are unbounded here and 64 bits wide in the source.
- RestoreVersion.Restoring: the output file is taken to be new; the program does not truncate an existing one. Forward assembly needs a non-empty recipe, because the source compares with an unsigned `size() - 1`. Where the program stops on a missing recipe or fingerprint the result is `None`.
- FAA.RestoreByAssembly: entries must lie inside the container buffer, as `RestoreVersion.InvReadable` proves for reachable stores.
- Queue.SyncQueue.Push: mutexes and condition variables are not modelled; one call is one pass through the critical section, and a thread that has to wait calls again. `sync_queue_find`, `sync_queue_get_top` and `queue_foreach` read the queue without changing it and no thread of the pipeline calls them; what the first two add to `LinkedQueue.Find` and `LinkedQueue.Top` is the lock, the wait and a copy.
- PipelineRun.EverySchedule: one file, as in the program. The assignments between two queue operations of a thread are part of the move that ends with the second one, since no other thread sees them.
- PipelineSettings.PathsAgreeExactly: files up to FILE_CACHE bytes, because the sequential writer chunks a longer file read by read and the pipeline as a whole, averages up to 1 MiB, because above it a chunk may not fit the container buffer of either writer, and files whose chunks the list buffer of the sequential writer holds. A configuration that one of the writers refuses, as the pipeline does with 512-byte blocks, is not compared.
- PipelineInvariant.FireKeeps: the path in the start mark and memory allocation are not modelled. What a copy past the container buffer destroys is not modelled either, the run stops there.
- FullFile.FullFileDeduplicater.Scan: what a scan finds behind its buffer is not modelled, such a run has no result here; each run performs one task, so the slot count read at the start is current.
- FullFile.HistoryKept: files must be at most 1 GiB, which is what is copied when they are saved, and fewer than 2^32 tasks, because counts have 32 bits.
- Json.Strtod: fractions, exponents and numbers outside `int` are left to strtod and printf, which are not part of this model, as are locales, allocator hooks, raw items and the tree-editing functions.
- JsonProgram.ParseBuffer.ParseNumber: fractions, exponents and numbers outside int are rejected here; the source leaves them to strtod.
- JsonProgram.ParseBuffer.ParseValue: a value that contains such a number is rejected here and parsed in the source.
- JsonProgram.ParseBuffer.ParseString: the error position that a failed parse leaves behind is not specified.
- JsonProgram.PrintBuffer.PrintValue: the growth of the output buffer (`ensure`, `update_offset`) is not modelled; the text is a sequence that grows.
