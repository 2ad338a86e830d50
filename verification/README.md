# Verified core of the touch recovery

A Dafny model of the parts of this recovery image that must not go wrong, with proofs of what they
promise. Check everything with `dafny verify dfyconfig.toml` (Dafny 4.11).

| part | files |
|---|---|
| binary deltas (`applypatch/bsdiff.c`, `bspatch.c`, `utils.c`) | Bytes, SuffixOrder, SuffixSort, SuffixBuckets, QSufSort, BsDiff, BsPatch |
| image deltas (`applypatch/imgdiff.c`, `imgpatch.c`) | ImgChunks, ImgFormat, ImgDiff, ImgPatch, ImgParts |
| crash-safe patching (`applypatch/applypatch.c`, `freecache.c`) | Paths, ApplyPatch, Appliers, Masking, Partition |
| debug bridge (`minadbd/transport.c`, `sockets.c`, `adb.c`, `fdevent.c`) | Transport, SocketLog, LocalSocket, Sockets, FdEvent |
| retouched binaries (`minelf/Retouch.c`) | Retouch |
| backups (`dedupe/dedupe.c`) | ManifestText, Dedupe, Backup |
| settings and restart (`settingshandler.c`, `iniparse/ini.c`, `recovery.c`) | Ini, Settings, Recovery |

Main results:

- The suffix sort is correct for every byte string and the delta encoder and decoder are inverse for every
  pair of files (`QSufSort.Qsufsort`, `BsDiff.Bsdiff`). imgdiff followed by the image applier reproduces the
  target if and only if the target is not cut inside an accepted gzip footer (`ImgDiff.DiffAndPatch`).
- Patching a regular file can be interrupted anywhere, any number of times, and resumed, and success means
  the target, if and only if the names, the masking and the patches allow it (`ApplyPatch.GoodExactly`,
  `Appliers.SoundExactly`, `Masking.ProperStorable`); and every rerun can finish (`ApplyPatch.RerunFinishes`).
- The debug bridge loses and reorders nothing, keeps its credits, frees no socket in use, and shuts a
  transport down once, for every schedule and every behaviour of the fds.
- Masking is canonical and reads every encoded list (`Retouch.MaskEncoded`), garbage collection is exact, a
  backup survives any history of further backups and collections, settings and boot arguments are read back,
  and a factory reset restarts until it has erased (`Recovery.ClearedBehindErase`).

Where the code does less than one would expect, the model follows the code, and the exact condition is
proved:

- `ReadImage` never ends on some images (`ImgChunks.StuckExactly`), and reads a footer that lies partly in
  its padding, so that the target comes out longer (`ImgChunks.WholeExactly`, `ImgDiff.CutTargetGrows`).
- The decoder never returns on a truncated bzip2 stream (`BsPatch.HangsExactly`).
- A failure inside a CHUNK_NORMAL record goes unnoticed (`ImgParts.AppliedExactly`); on a full disk this can
  leave a wrong target behind a right digest (`ImgParts.HonestExactly`, `Appliers.JunkPatch`).
- The copy that applypatch saves is in masked form, and masking is not idempotent when a listed word overlaps
  the list: such a source is lost (`Masking.ImproperFile`, `ApplyPatch.UnstorableIsLost`).
- `search` compares over the shorter length and may miss the longest match, so only a genuine match is
  stated; the round trip needs no more.
- `fdevent_set` keeps the reported events that are not in the new subscription, against its comment
  (`FdEvent.Loop.Set`); a closing socket can therefore be asked to read, and is freed with unwritten
  bytes if that read finds the end of the fd (`LocalSocket.ClosingKeepsStaleRead`, `SocketLog.Allowed`).
- A host that sends a WRTE before the OKAY for the one before gets fewer OKAYs than it sent WRTEs.
- `gc` stops at a too-new manifest and deletes all the same (`Dedupe.TooNewLosesReferences`).
- A malformed digest hides later matches when a partition is loaded, and a boot request that is too
  long for the boot message can lose its wipe (`Recovery.SafeExactly`, `Recovery.LongRequestLost`).

How outside things appear: bzip2 is a compressor and what its streams deliver, with
decompress(compress(x) + tail) = x; zlib is a pair of functions of which inflate ignores what follows the
stream; digests, getopt and service names are parameters; what the kernel does with a read, write or select is
a parameter of the step, so every behaviour is covered; freed memory is absent from the socket maps, so each
access is also a proof that it does not dangle. A C function that leaves the memory it may touch ends in
`Undefined` (or `Overrun`), of which nothing is said.

## Model

| member | source | states |
|---|---|---|
| SuffixOrder.KeyOrder | applypatch/bsdiff.c:60-119 | the doubling step: of two suffixes that share h bytes, a smaller rank h bytes further on means a smaller suffix, and an equal rank means 2h shared bytes |
| SuffixOrder.SuffixLessAsymmetric | applypatch/bsdiff.c:121-157 | the order that the sort establishes is strict |
| SuffixOrder.CarveKeeps | applypatch/bsdiff.c:77-80 | giving the front of a group its own rank keeps ranks, order and depth of the whole array |
| SuffixSort.GatherSmallest | applypatch/bsdiff.c:66-76 | the smallest keys of the rest of a group end up in front, by rearranging that range only |
| SuffixSort.SetRanks | applypatch/bsdiff.c:77 | every suffix of a range gets the range's last index as rank, all others keep theirs |
| SuffixSort.Carve | applypatch/bsdiff.c:77-78 | a finished range is one group, marked -1 exactly when it holds one suffix, and the invariant still holds |
| SuffixSort.SplitShort | applypatch/bsdiff.c:64-81 | the selection sort orders a group of up to 15 suffixes by 2h bytes |
| SuffixSort.CountKeys | applypatch/bsdiff.c:83-89 | jj and kk are the numbers of keys below, and not above, the pivot |
| SuffixSort.MoveSmaller | applypatch/bsdiff.c:91-102 | every key below the pivot is moved in front of jj, within the group's range |
| SuffixSort.MoveEqual | applypatch/bsdiff.c:104-111 | every equal key is moved in front of kk |
| SuffixSort.CutBelow | applypatch/bsdiff.c:83-111 | a cut by keys is a cut by suffixes |
| SuffixSort.EqualPairs | applypatch/bsdiff.c:113-116 | equal keys inside a group double the shared prefix |
| SuffixSort.PartitionGroup | applypatch/bsdiff.c:83-111 | the three-way partition: all suffixes below, at and above the pivot are in that order |
| SuffixSort.Split | applypatch/bsdiff.c:60-119 | split only permutes its range, reads V[I[k]+h] in bounds, and leaves the range ordered and ranked by 2h bytes |
| SuffixBuckets.BucketStarts | applypatch/bsdiff.c:126-130 | buckets[c] is the number of bytes smaller than c |
| SuffixBuckets.SlotInjective | applypatch/bsdiff.c:132-133 | no two suffixes get the same slot |
| SuffixBuckets.SlotSurjective | applypatch/bsdiff.c:132-133 | every index is the slot of a suffix |
| SuffixBuckets.BucketedState | applypatch/bsdiff.c:126-135 | after the bucket sort the invariant holds for one byte |
| SuffixBuckets.FillBuckets | applypatch/bsdiff.c:132-133 | every suffix is put at its slot, the empty one first |
| SuffixBuckets.RankBuckets | applypatch/bsdiff.c:134-135 | every suffix is ranked by the end of its bucket |
| QSufSort.MarkBuckets | applypatch/bsdiff.c:136-137 | only lone suffixes are marked as sorted; a lone byte 0 is left as a group of one |
| QSufSort.PassSkip | applypatch/bsdiff.c:142-144 | a run of sorted indices is passed over |
| QSufSort.PassGroup | applypatch/bsdiff.c:147-148 | the group found at i is exactly what split expects |
| QSufSort.PassSplit | applypatch/bsdiff.c:149-151 | after split the pass invariant holds for the next group |
| QSufSort.Pass | applypatch/bsdiff.c:140-154 | one pass orders all suffixes by 2h bytes, and finishes the sort once h exceeds the size |
| QSufSort.AllLone | applypatch/bsdiff.c:139 | when I[0] is -(oldsize+1) no two suffixes share a rank |
| QSufSort.WriteBack | applypatch/bsdiff.c:156 | inverting the ranks gives the permutation |
| QSufSort.Qsufsort | applypatch/bsdiff.c:121-157 | for every byte string the sort terminates and I lists all suffixes, each once, in increasing order |
| BsDiff.MatchLen | applypatch/bsdiff.c:159-167 | the length of the longest common prefix |
| BsDiff.Search | applypatch/bsdiff.c:169-193 | a genuine match at an indexed position, as long as it can be there |
| BsDiff.CountPredicted | applypatch/bsdiff.c:290-293 | oldscore counts the bytes that continuing at the last offset would predict |
| BsDiff.FindMatch | applypatch/bsdiff.c:281-302 | the scan ends at a match or at the end of new, with every access in bounds |
| BsDiff.ForwardLen | applypatch/bsdiff.c:304-309 | the forward extension with the best score, within both files |
| BsDiff.BackwardLen | applypatch/bsdiff.c:311-318 | the backward extension with the best score, within both files, and none at the end of new |
| BsDiff.DivideOverlap | applypatch/bsdiff.c:320-333 | an overlap is divided where the old match gains most; both lengths stay non-negative and no byte is in both |
| BsDiff.AddDiff | applypatch/bsdiff.c:335-337 | adding old to the difference bytes gives new |
| BsDiff.TripleStep | applypatch/bsdiff.c:343-357 | one triple takes the decoder from one scan position to the next with the bytes of new in between |
| BsDiff.CoversExtend | applypatch/bsdiff.c:343-357 | the streams written so far, extended by a triple, replay to the longer prefix of new |
| BsDiff.WriteBlocks | applypatch/bsdiff.c:335-341 | exactly the difference and extra bytes of the range are appended |
| BsDiff.EncodeStreams | applypatch/bsdiff.c:281-362 | for every old, new and index array into old, replaying the three streams gives exactly new |
| BsDiff.EmbeddedDecodes | applypatch/bsdiff.c:363-403 | the patch decodes to new wherever it is embedded in a larger file |
| BsDiff.Bsdiff | applypatch/bsdiff.c:224-410 | every patch that fits a file decodes to new; a cached index is used, a fresh one is the suffix array |
| Bytes.OfftinOfftout | applypatch/bsdiff.c:195-211 | offtin inverts offtout for every magnitude below 2^63 |
| BsPatch.ReplaySize | applypatch/bspatch.c:193-246 | a successful replay makes exactly the announced number of bytes and keeps what was made |
| BsPatch.Stream.FillBuffer | applypatch/bspatch.c:84-98 | exactly size bytes are taken from the stream; behind its last byte a complete stream makes it fail, and one whose input is used up makes it run forever |
| BsPatch.AddOld | applypatch/bspatch.c:220-225 | old is added byte by byte, positions outside it add nothing |
| BsPatch.PlayTriple | applypatch/bspatch.c:199-245 | one triple in place does what the meaning of a triple says, in the four ways in which it can end; negative lengths are outside the memory it may touch |
| BsPatch.ReplayInto | applypatch/bspatch.c:193-246 | the loop fills the buffer with the replay of the streams |
| BsPatch.ApplyBSDiffPatchMem | applypatch/bspatch.c:123-252 | the result is the meaning of the patch: the new file, an error, no return, or an access outside the patch or the buffers |
| BsPatch.HangsExactly | applypatch/bspatch.c:84-98 | the decoder never returns if and only if it comes to a point where it asks a starving stream for more than it has |
| BsPatch.CompleteReturns | applypatch/bspatch.c:84-98 | with complete streams it always returns |
| ImgPatch.ApplyBSDiffPatch | applypatch/bspatch.c:100-121 | a short write is reported and kept out of the digest, what was written stays in the sink |
| Appliers.DeltaHonest | applypatch/bspatch.c:100-121 | a delta is reported as applied only if all of it is in the file and in the digest |
| Bytes.ReadWrite | applypatch/utils.c:22-65 | every integer that fits its field, negative ones included, is read back as written |
| Bytes.WriteRead | applypatch/utils.c:22-65 | the bytes of a field are those of the integer that is read from it |
| ImgChunks.ReadOne | applypatch/imgdiff.c:404-515 | one turn of the loop: a gzip member, whose footer may reach into the four zero bytes of padding, or normal bytes up to the next magic |
| ImgChunks.ReadImage | applypatch/imgdiff.c:376-519 | the loop computes the layout, with its rejections, endless turns and reads behind the buffer, and where it ends |
| ImgChunks.LayoutTiles | applypatch/imgdiff.c:403-516 | whatever is returned tiles the image, and the padding that a last footer takes, without gap or overlap |
| ImgChunks.MagicExactly | applypatch/imgdiff.c:406-409 | with the padding, the four bytes are found exactly at 1f 8b 08 00 inside the image and at a 1f 8b 08 that ends it |
| ImgChunks.LayoutByBytes | applypatch/imgdiff.c:404-515 | every deflate chunk begins ten bytes behind a literal 1f 8b 08 00, and no other chunk but headers holds one; a normal chunk goes on to the next one or to the end |
| ImgChunks.PlainImage | applypatch/imgdiff.c:498-514 | an image without 1f 8b 08 00 that does not end in 1f 8b 08 is one normal chunk |
| ImgChunks.NextExactly | applypatch/imgdiff.c:404-515 | a turn makes no progress exactly at a member that inflate never finishes or at a 1f 8b 08 that ends the image, and moves on exactly if a member there is complete and it is not such an end |
| ImgChunks.ReadExactly | applypatch/imgdiff.c:403-516 | chunks are returned if and only if every member that the loop comes by is complete and it does not come by a 1f 8b 08 that ends the image |
| ImgChunks.StuckExactly | applypatch/imgdiff.c:403-516 | the loop runs forever if and only if it comes by a member that inflate never finishes or by a 1f 8b 08 that ends the image |
| ImgChunks.WholeExactly | applypatch/imgdiff.c:469-486 | the chunks stand for exactly the image if and only if no footer that the loop accepts crosses its end |
| ImgChunks.CutFooter | applypatch/imgdiff.c:481-486 | a 19-byte image, an empty member without the last footer byte, is read as 20 bytes |
| ImgChunks.RunMerged | applypatch/imgdiff.c:735-754 | collapsing a run by its ends is merging its chunks one by one |
| ImgChunks.MergeAdjacentNormalChunks | applypatch/imgdiff.c:712-760 | the in-place loop leaves the list with every run of adjoining normal chunks made one |
| ImgChunks.MergedTiled | applypatch/imgdiff.c:712-760 | merging covers the same bytes, still without gap or overlap |
| ImgChunks.MergedParallel | applypatch/imgdiff.c:712-760 | the merged types depend on the types alone, so parallel lists stay parallel |
| ImgDiff.ReconstructDeflateChunk | applypatch/imgdiff.c:574-603 | the encoder found recompresses the chunk to its own bytes, and one is found exactly if level 6 or 9, raw with window 15 and memory 8, does |
| ImgDiff.ParallelChange | applypatch/imgdiff.c:678-684 | turning the same deflate chunk of both lists normal keeps both tilings and equal types |
| ImgDiff.Settle | applypatch/imgdiff.c:879-920 | afterwards the lists are parallel and the deflate chunks left are exactly those that can be recompressed and whose bytes differ from the source's |
| ImgDiff.MakePatch | applypatch/imgdiff.c:607-669 | whichever of RAW, NORMAL and DEFLATE is chosen, the entry yields the target chunk's bytes; RAW exactly for a normal chunk of at most 160 bytes or not longer than its delta |
| ImgDiff.MakePatches | applypatch/imgdiff.c:949-971 | one sound entry per target chunk |
| ImgDiff.HeaderTotal | applypatch/imgdiff.c:977-991 | total_header_size is the sum of the header sizes |
| ImgDiff.WriteRecords | applypatch/imgdiff.c:1001-1038 | each record carries the offset at which its patch will be |
| ImgDiff.WriteBodies | applypatch/imgdiff.c:1042-1046 | the patches follow in order, raw chunks without one |
| ImgDiff.WriteImageFile | applypatch/imgdiff.c:977-1046 | magic, count, records and patches, with the offsets starting right behind the headers |
| ImgDiff.SameKinds | applypatch/imgdiff.c:866-876 | the comparison of chunk types |
| ImgDiff.YieldsBehind | applypatch/imgdiff.c:949-971 | what an entry yields does not depend on the memory behind the source |
| ImgDiff.FileImage | applypatch/imgdiff.c:973-1046 | the file laid out for a tiled target has that target as its full output |
| ImgDiff.ParallelMerged | applypatch/imgdiff.c:926-939 | merging both lists leaves them equally long, so the went-awry exit is never taken |
| ImgDiff.ImgDiff | applypatch/imgdiff.c:782-1051 | for every source and target a patch is written if and only if their chunk structures agree, its full output is the target with the padding that its last footer took, and merging never goes awry |
| ImgDiff.DiffChunks | applypatch/imgdiff.c:879-1050 | two lists of one structure always end in a patch whose full output is the target's bytes |
| ImgDiff.WholeUnlessCut | applypatch/imgdiff.c:393-396 | the full output is the target itself if and only if the target is not cut inside an accepted footer |
| ImgDiff.CutTargetGrows | applypatch/imgdiff.c:481-486 | the 19-byte image is accepted and comes out one byte longer |
| ImgFormat.RecordParses | applypatch/imgpatch.c:60-122 | every record that imgdiff writes is read back field by field and leads to the next one |
| ImgFormat.ParsedIsRecord | applypatch/imgpatch.c:60-122 | whatever is read as a record has the bytes of that record; unknown types and cut records are refused |
| ImgFormat.RecordYields | applypatch/imgpatch.c:69-207 | a record whose patch is where it says yields its chunk: the raw bytes, the patched source, or the source expanded, patched and compressed again |
| ImgFormat.RecordsParts | applypatch/imgpatch.c:60-229 | all records together are the parts of the entries, in order |
| ImgFormat.ImageFileParts | applypatch/imgpatch.c:38-229 | a complete file of writable entries has exactly their outputs as its full output |
| ImgPatch.Outlet.WritePieces | applypatch/imgpatch.c:208-220 | all pieces arrive in order, or it fails at the first that is not taken whole |
| ImgPatch.PlayRecord | applypatch/imgpatch.c:69-228 | one record in place: what reaches the sink and the digest is the record's meaning, also when a CHUNK_NORMAL record fails unnoticed |
| ImgPatch.ApplyImagePatch | applypatch/imgpatch.c:38-232 | it does to the sink, a buffer or a file, and to the digest what the patch means for them, in the four ways in which it can end |
| ImgParts.InOneWrite | applypatch/imgpatch.c:123-220 | raw data, and recompressed data that fits its buffer, reaches the sink in one piece, and is hashed exactly if the sink takes all of it |
| ImgParts.ApplyPlays | applypatch/imgpatch.c:60-229 | a run succeeds exactly if no record ends every run and the sink takes all that must be written, and then has played the records in order |
| ImgParts.AppliedExactly | applypatch/imgpatch.c:81-82 | a run that reports success has written the output of every record if and only if every CHUNK_NORMAL record decodes and is taken whole when its turn comes |
| ImgParts.NormalsNeverFail | applypatch/imgpatch.c:81-82 | a patch of CHUNK_NORMAL records is reported as applied whatever its bodies hold and the sink does |
| ImgParts.ImageApplies | applypatch/imgpatch.c:38-232 | with room in the sink, a patch with a full output writes and hashes exactly that |
| ImgParts.PlayKeeps | applypatch/imgpatch.c:81-82 | what a run hashes is the output of some choice of records that includes all but CHUNK_NORMAL ones, and so is what it writes if each one left out has at most one byte |
| ImgParts.HonestExactly | applypatch/imgpatch.c:81-82 | a good digest vouches for the file, for every behaviour of write(), if and only if no CHUNK_NORMAL outputs, one of more than a byte, can be left out so that the rest has a good digest |
| ImgParts.IntendedIsTight | applypatch/imgpatch.c:81-82 | that is so if the full output is the only contents with a good digest |
| ImgDiff.DiffAndPatch | applypatch/imgpatch.c:38-232 | imgdiff followed by the applier, on a source that is not cut short, leaves the target in the sink if and only if the target is not cut short |
| ImgPatch.Outlet.MemorySink | applypatch/applypatch.c:558-568 | a write is taken whole or refused, and nothing else changes |
| ImgPatch.Outlet.FileSink | applypatch/applypatch.c:537-550 | what is written is the prefix that write() took before it failed, and the result is its length |
| ApplyPatch.PickedInOrder | applypatch/applypatch.c:643-699 | the target is looked at first, then the source, then the copy, also when source and target are one file |
| ApplyPatch.FinishHead | applypatch/applypatch.c:766-939 | whatever the measured space, from the source or from the copy, a run can go on to success; it makes a copy only of a source and only without enough space, and removes it at the end |
| ApplyPatch.SpaceMeasured | applypatch/applypatch.c:776-790 | both results of the measurement are possible on the first try, and the second try does not measure |
| ApplyPatch.RetryFinishes | applypatch/applypatch.c:889-904 | a first attempt that fails is tried again, and the second one can succeed |
| ApplyPatch.RerunFinishes | applypatch/applypatch.c:615-939 | whenever applypatch is started again, after a power failure at any point or a failed run, it can end in success with the target done |
| ApplyPatch.RunTouches | applypatch/applypatch.c:741-939 | a run changes no file but target and output, and, when it goes on from the source, the source, the copy and expendable files |
| ApplyPatch.RerunFinds | applypatch/applypatch.c:615-709 | on a safe disk a run exits early or finds something to patch |
| ApplyPatch.BeginBacked | applypatch/applypatch.c:643-699 | what a run picks is on disk, in the source or in the copy |
| ApplyPatch.SaveKeeps | applypatch/applypatch.c:800-805 | saving the source rewrites the copy, and the source is removed only behind a synced copy |
| ApplyPatch.FreeKeeps | applypatch/applypatch.c:766-798 | measuring and making space removes nothing that the run is based on |
| ApplyPatch.OutputKeeps | applypatch/applypatch.c:844-882 | writing the output never touches what the run is based on |
| ApplyPatch.JudgeKeeps | applypatch/applypatch.c:884-904 | an output is accepted only with the target digest, and a retry starts from what the run is based on |
| ApplyPatch.RenameKeeps | applypatch/applypatch.c:913-936 | the target is replaced only by a synced file that reads as the target |
| ApplyPatch.CrashSafe | applypatch/applypatch.c:741-939 | a power failure leaves a safe disk safe, whatever unsynced files turn into |
| ApplyPatch.StepKeeps | applypatch/applypatch.c:741-939 | with an admissible, storable and sound job, every step, power failure and rerun included, keeps the invariant |
| ApplyPatch.AlwaysRecoverable | applypatch/applypatch.c:615-709 | with such a job, at every point of every history the target is done, the source intact or the copy intact, and a rerun there exits early or finds a usable patch |
| ApplyPatch.SuccessMeansTarget | applypatch/applypatch.c:884-939 | with an admissible, storable and sound job, success leaves a target with the target digest, the loop body runs at most twice, and without enough space it writes only behind a saved and unlinked source |
| ApplyPatch.UnsoundSucceeds | applypatch/applypatch.c:884-939 | if the applier's digest does not vouch for what it wrote, a run reports success and leaves something else in the target |
| ApplyPatch.UnstorableIsLost | applypatch/applypatch.c:800-805 | a source whose masked form cannot be loaded again is saved in that form, unlinked, and lost |
| Masking.MaskKeepsLength | applypatch/applypatch.c:94-105 | LoadFileContents masks in place |
| Masking.MaskStable | applypatch/applypatch.c:94-105 | masking a file twice is masking it once, if masking leaves it alone or its listed words are outside list and tags |
| Masking.ProperStorable | applypatch/applypatch.c:94-105 | with the real masking, a job whose sources are such files is storable |
| Masking.PlainDelta | applypatch/applypatch.c:866-884 | a delta job from one unmasked file to another is storable and sound, if their digests are their own |
| ApplyPatch.GoodExactly | applypatch/applypatch.c:741-939 | in all reachable states nothing is lost and success means the target, if and only if the source is not expendable, source, target, copy and output are the files assumed, whatever is taken from the source can be loaded again from the copy, and the applier's digest vouches for its output |
| Paths.Suffixed | applypatch/applypatch.c:844-847 | the output is another file than the target, whatever the spelling of the target's name |
| Appliers.SoundExactly | applypatch/applypatch.c:866-877 | if no other contents have the target digest, success always means the target if and only if the target is in masked form and no image patch for loadable contents can leave out CHUNK_NORMAL output unnoticed |
| Appliers.IntendedReliable | applypatch/applypatch.c:870-873 | an image patch whose full output is the target cannot |
| Appliers.JunkPatch | applypatch/applypatch.c:870-873 | a patch with the target in a CHUNK_RAW record and more than a byte in a CHUNK_NORMAL record can |
| Partition.ParseSha1 | applypatch/applypatch.c:447-471 | a digest is 40 hexadecimal digits of either case and nothing else, and the value is theirs |
| Partition.ParseHex | applypatch/applypatch.c:447-471 | the printed form of any bytes is parsed back |
| Partition.DigitValues | applypatch/applypatch.c:452-460 | the value of each of the 22 digits |
| Partition.DigitsExactly | applypatch/applypatch.c:452-462 | no other character is a digit |
| Partition.ParseUpper | applypatch/applypatch.c:447-471 | case does not matter |
| Partition.LoadPartitionContents | applypatch/applypatch.c:140-304 | without any pair the result is undefined; otherwise the load succeeds if and only if no size is zero and a matching pair is not behind a malformed digest, and returns the prefix of the smallest listed size that matches |
| Partition.ReachedIfWellFormed | applypatch/applypatch.c:174-304 | with well-formed digests that is: if and only if some pair matches, also when other sizes exceed the partition |
| Partition.FirstIsSmallest | applypatch/applypatch.c:111-121 | the first match in sorted order has the smallest matching size, whatever the order of equal sizes |
| ApplyPatch.ResolvedNames | applypatch/freecache.c:82-104 | the files are told apart by what their names resolve to: /cache//foo is the expendable /cache/foo |
| Paths.DownAndUp | applypatch/freecache.c:82-104 | a component leads one directory down, two dots back up, an empty one and a single dot nowhere |
| ApplyPatch.ExpendableExactly | applypatch/freecache.c:82-104 | the expendable files are those directly in /cache and /cache/recovery/otatest, but for the saved source |
| ApplyPatch.ExpendableIsLost | applypatch/freecache.c:128-172 | a source in an expendable directory can be deleted before it is saved |
| Transport.LeaveCounted | minadbd/transport.c:65-81 | kick_transport and transport_unref keep the count of kicks, references and removals, with the other thread anywhere |
| Transport.ConsumeFlow | minadbd/transport.c:320-348 | reading one packet keeps what went to the remote equal to the packets after the matching SYNC |
| Transport.BumpFlow | minadbd/transport.c:255-267 | raising sync_token invalidates nothing that was let through |
| Transport.StepInv | minadbd/transport.c:255-359 | every step of either thread or of the event loop keeps the invariant |
| Transport.RemoteSeesOrderedStream | minadbd/transport.c:255-359 | for every schedule, what reached the remote is an in-order subsequence of what was sent, and nothing from before the SYNC with the current token |
| Transport.OfflineIsLast | minadbd/transport.c:320-348 | for every schedule, nothing is read or goes to the remote behind a SYNC offline |
| Transport.AnnouncedStays | minadbd/transport.c:260-275 | for every schedule, the SYNC of the output thread is never lost: it is next for the event loop or comes back in front of every other SYNC |
| Transport.StreamStarts | minadbd/transport.c:320-337 | as long as the input thread reads, the stream to the remote can start |
| Transport.StreamFlows | minadbd/transport.c:320-348 | then every packet sent can reach the remote, in order |
| Transport.OneKickOneRemoval | minadbd/transport.c:554-577 | for every schedule, at most one kick; removal is posted exactly when both threads have dropped their references, after the kick; nothing is freed under a running thread |
| SocketLog.AlwaysBalanced | minadbd/sockets.c:130-366 | at every moment of a lawful history the fd has a prefix of the accepted bytes, WRTEs are at most one more than OKAYs received, and OKAYs at most WRTEs received |
| SocketLog.FreedAfterDraining | minadbd/sockets.c:235-254 | a freed socket has nothing unwritten unless writing failed or its fd ended while it drained |
| LocalSocket.WritePacket | minadbd/sockets.c:147-163 | the inner write loop: a prefix is written, finished exactly if all of it, for short writes, EAGAIN and EINTR in any order |
| LocalSocket.Enqueue | minadbd/sockets.c:130-181 | the answer is the one the results of the fd call for: Ready only if every accepted byte is in the fd, otherwise the rest is queued in order, or the fd broke |
| LocalSocket.Drain | minadbd/sockets.c:268-293 | the queue is written out in order as far as the results of the fd allow, and finished exactly if it is empty |
| LocalSocket.ResumedSound | minadbd/sockets.c:304-310 | after the drain the one OKAY due may be sent, and the socket is sound again |
| LocalSocket.ReadAll | minadbd/sockets.c:316-336 | the read loop delivers what the fd gave, at most MAX_PAYLOAD bytes, and whether it ended |
| LocalSocket.PassedSound | minadbd/sockets.c:339-366 | the WRTE has a credit, carries exactly the bytes read, and reading stops until the next OKAY |
| LocalSocket.CreditSound | minadbd/sockets.c:183-189 | an OKAY adds one credit |
| LocalSocket.ShutSound | minadbd/sockets.c:247-254 | a socket moved to the closing list stays sound |
| LocalSocket.ClosingKeepsStaleRead | minadbd/sockets.c:247-254 | closing keeps a reported read that is no longer wanted and drops the reported write |
| Sockets.FindExactly | minadbd/sockets.c:62-77 | the walk finds the addressee, and nothing exactly if no listed socket has the id |
| Sockets.DistinctIds | minadbd/sockets.c:86-97 | until the ids have wrapped around, listed sockets have different ids |
| Sockets.WithoutKeeps | minadbd/sockets.c:99-110 | unlinking removes exactly the one socket |
| Sockets.ShutdownLinked | minadbd/sockets.c:220-254 | closing a socket keeps peer symmetry, the two lists and the disconnect lists |
| Sockets.Engine.CloseLocal | minadbd/sockets.c:220-254 | the remote is freed and CLSE sent, and the socket is freed exactly if it was closing or has nothing to write |
| Sockets.Engine.Disconnect | minadbd/sockets.c:467-479 | the local socket is closed, the remote freed, and nothing is sent |
| Sockets.Engine.WriteEvent | minadbd/sockets.c:256-310 | a drained socket sends one OKAY, a drained closing one is freed, a blocked one changes only its own queue |
| Sockets.Engine.ReadEvent | minadbd/sockets.c:313-372 | one WRTE with the bytes read; the end of the fd closes the socket; a closing socket sends nothing |
| Sockets.Engine.Handle | minadbd/sockets.c:256-384 | the packets sent are the OKAY due, the WRTE with the bytes read and the CLSE, in this order, as the results of the fd call for them; every invariant is kept and no other local socket touched |
| Sockets.Engine.BetweenHandlers | minadbd/sockets.c:130-498 | between handlers every listed socket and its remote point at each other, the list is oldest first, the ids are distinct until they wrap around, a socket waits for data exactly while the host allows a WRTE, closing sockets have no peer and something to write, bytes and credits balance, each WRTE has its own OKAY if and only if the host always waited, and the histories of live and freed sockets tell of exactly the WRTE and OKAY packets sent |
| Sockets.Engine.HandleSync | minadbd/adb.c:295-304 | offline drops the transport's sockets, and both forms are echoed |
| Sockets.Engine.HandleConnect | minadbd/adb.c:306-315 | an online transport is reset before it comes online again |
| Sockets.Engine.HandleOpen | minadbd/adb.c:317-331 | a new pair with the next id, one OKAY and one credit, or CLSE for a refused service, or nothing while offline |
| Sockets.Engine.HandleOkay | minadbd/adb.c:333-343 | one more credit for the first listed socket with the packet's id, and nothing changes exactly if there is none or the transport is offline; the branch that would make a remote is never taken |
| Sockets.Engine.HandleClose | minadbd/adb.c:345-351 | the first listed socket with the packet's id is closed, and nothing changes exactly if there is none or the transport is offline |
| Sockets.Engine.HandleWrite | minadbd/adb.c:353-366 | the first listed socket with the packet's id gets the bytes, with the OKAY at once exactly if all of them went to the fd, and nothing changes exactly if there is none or the transport is offline |
| Sockets.Engine.RunDisconnects | minadbd/transport.c:83-94 | afterwards the transport has no remote sockets, its local ones are freed or closing, and all others are as before |
| FdEvent.PlistEnqueue | minadbd/fdevent.c:474-482 | the node joins the end of a well-formed ring |
| FdEvent.PlistRemove | minadbd/fdevent.c:484-490 | the node leaves the ring, which stays well-formed and in order |
| FdEvent.PlistDequeue | minadbd/fdevent.c:492-505 | the first node leaves the ring, and none only if it is empty |
| FdEvent.CutStep | minadbd/fdevent.c:484-490 | the neighbours of a removed node become neighbours, also around the sentinel |
| FdEvent.Loop.Install | minadbd/fdevent.c:593-609 | the fdevent is registered at its fd, below select_n, with nothing pending, or the program aborts; one that is registered there already is displaced |
| FdEvent.Loop.Reserve | minadbd/fdevent.c:434-451 | the table grows without losing an entry, and the new part is empty |
| FdEvent.Loop.Disconnect | minadbd/fdevent.c:267-279 | the fd leaves all sets, and every registered fd is still below select_n |
| FdEvent.Loop.Remove | minadbd/fdevent.c:611-625 | the fdevent leaves ring, sets and table, and everything else stays |
| FdEvent.Loop.Set | minadbd/fdevent.c:628-652 | reported events survive exactly if they are not in the new subscription, and the ring follows |
| LocalSocket.FdSetAgrees | minadbd/fdevent.c:628-652 | the sockets' view of it, on read and write alone, is the same |
| FdEvent.Loop.Update | minadbd/fdevent.c:281-300 | an fd is in a set exactly if its fdevent wants that event |
| FdEvent.Loop.TakeNext | minadbd/fdevent.c:492-515 | the oldest pending fdevent, no longer pending, with all its events |
| FdEvent.Loop.FdCheck | minadbd/fdevent.c:305-321 | exactly the registered fds that are invalid |
| FdEvent.Loop.Dispatch | minadbd/fdevent.c:404-423 | the countdown stops only when all ready fds have been seen |
| FdEvent.ReportedExactly | minadbd/fdevent.c:404-423 | an fd is readable, writable or in error as select says, and an invalid one readable |
| FdEvent.Loop.ReportBad | minadbd/fdevent.c:389-402 | after an error of select exactly the fdevents with an invalid fd get a read event, and the ring grows at its end, with no fdevent twice |
| FdEvent.Loop.Process | minadbd/fdevent.c:365-424 | every ready fdevent gets exactly its events and is in the ring once; the missing-fde abort is unreachable |
| Retouch.WalkBlob | minelf/Retouch.c:147-186 | the in-place loop does what the meaning of the list says, with errors and mismatches |
| Retouch.RetouchMaskData | minelf/Retouch.c:109-196 | the whole function in place, with all four results |
| Retouch.DecodeCode | minelf/Retouch.c:47-107 | every entry in its 2-, 3- or 8-byte form is read back: offset, contents modulo 2^32 with signed differences, and the next position |
| Retouch.FixesCodes | minelf/Retouch.c:147-162 | the encoding of any entries, in any mix of forms, is read as exactly the words they are about |
| Retouch.RetouchedList | minelf/Retouch.c:119-146 | a file laid out from words, list, tags, size and prelink address is well-formed and has that list |
| Retouch.MaskEncoded | minelf/Retouch.c:109-196 | masking such a file at d makes every listed word what it held plus d modulo 2^32, and changes no other byte |
| Retouch.WordPut | minelf/Retouch.c:47-79 | a written word is read back, and the other bytes stay |
| Masking.ImproperFile | minelf/Retouch.c:155-169 | a 32-byte file whose listed word overlaps its list: masking accepts it, and refuses the result |
| Masking.ImproperNotStorable | minelf/Retouch.c:155-169 | a job that patches that file is not storable |
| Retouch.OffsetRecovered | minelf/Retouch.c:168-185 | a 32-bit offset is recovered from a word and its original, wrap-around included |
| Retouch.MaskWrites | minelf/Retouch.c:147-186 | masking a well-formed file sets exactly the listed words and reports a match |
| Retouch.MaskCanonical | minelf/Retouch.c:109-196 | masking at d and then at e gives the same bytes as masking at e |
| Retouch.InferExactly | minelf/Retouch.c:168-195 | inference reports a match with offset d if and only if every listed word reads back shifted by d |
| Retouch.InferenceFindsMask | minelf/Retouch.c:109-196 | with an entry and disjoint words, inference on a file masked at d returns MATCHED and d |
| ManifestText.ComputeDecToOct | dedupe/dedupe.c:253-264 | the loop takes decimal digits as octal ones |
| ManifestText.DecToOctPrinted | dedupe/dedupe.c:253-264 | dec_to_oct inverts octal printing for every number |
| ManifestText.AtoiPrinted | dedupe/dedupe.c:99-101 | a printed integer is read back |
| ManifestText.Tokenize | dedupe/dedupe.c:237-251 | the text before the first separator and the text after it |
| ManifestText.ParsePrinted | dedupe/dedupe.c:417-496 | every entry without tabs and newlines is parsed back as printed |
| ManifestText.LineKeysJoined | dedupe/dedupe.c:552-578 | with or without times, a file line names its key and another line none |
| ManifestText.ParseOldFile | dedupe/dedupe.c:417-496 | a file line of version 1, without times, is parsed |
| ManifestText.ParseItemExactly | dedupe/dedupe.c:417-496 | a line is an entry exactly if its type is f, d or l and it has the fields of its type |
| ManifestText.LineKeysExactly | dedupe/dedupe.c:552-578 | gc can take a line apart exactly if it has the fields in front of the name and, for a file, those up to the key |
| ManifestText.PrintedKeys | dedupe/dedupe.c:552-578 | gc finds the key of a printed file entry |
| Dedupe.ManifestRoundTrip | dedupe/dedupe.c:371-496 | a manifest within the buffers is read back entry by entry, and gc reads its keys |
| Dedupe.VersionOneKeys | dedupe/dedupe.c:532-581 | a headerless manifest of version 1 is read, and its reference collected |
| Dedupe.Sweep | dedupe/dedupe.c:588-603 | the two-pointer sweep removes exactly the listed files that are not referenced, with duplicates and an empty list |
| Dedupe.CollectReferences | dedupe/dedupe.c:522-581 | the references of all manifests up to the first too-new one, or none if one does not open or crashes the program |
| Dedupe.Gc | dedupe/dedupe.c:522-603 | the whole command leaves exactly the blobs that the specification keeps, unless it comes to an empty manifest |
| Dedupe.UnreadableKeepsAll | dedupe/dedupe.c:522-528 | a manifest that does not open, or crashes the program, ends gc before it deletes anything |
| Dedupe.NewerRefused | dedupe/dedupe.c:409-416 | a manifest is refused by extract and gc exactly if its header states a version above 2 |
| Dedupe.GcExact | dedupe/dedupe.c:522-603 | with manifests of versions 1 and 2 that open and can be taken apart, a blob is removed if and only if no manifest references it |
| Dedupe.TooNewLosesReferences | dedupe/dedupe.c:536-541 | with a too-new manifest a blob is kept if and only if a manifest in front of it references it |
| Backup.Context.StoreSt | dedupe/dedupe.c:217-235 | the manifest and the store grow by exactly the node's entries and blobs |
| Backup.Context.StoreDir | dedupe/dedupe.c:164-202 | the same for a directory, without excluded names |
| Backup.StoreBlobGrows | dedupe/dedupe.c:103-162 | storing a file loses and changes no blob |
| Backup.StoreBlobSize | dedupe/dedupe.c:103-162 | whatever the store held under the key, there is a blob of the right size afterwards; a blob of another size is replaced, and nothing else changes |
| Backup.StoredHolds | dedupe/dedupe.c:99-235 | a backup makes every blob that its entries name available |
| Backup.ExtractKept | dedupe/dedupe.c:417-496 | extracting a node's entries adds exactly its kept part, parents before children |
| Backup.LaterAvailable | dedupe/dedupe.c:522-603 | further backups, and gc runs that include the manifest, keep its blobs |
| Backup.PermBits | dedupe/dedupe.c:99-101 | of the mode exactly bits 0 to 8, 10 and 11 are kept |
| Backup.IntSizeExactly | dedupe/dedupe.c:160 | the size that is printed is the file's modulo 2^32 as a signed number |
| Backup.ExtractExactly | dedupe/dedupe.c:371-470 | a backup can be extracted from a sound store exactly if every blob that it names is there |
| Backup.BackupSurvives | dedupe/dedupe.c:99-496 | after any such history extraction restores kind, contents, owner and mode & 06777 of every kept entry |
| Ini.Rstrip | iniparse/ini.c:24-30 | the text without its trailing white space |
| Ini.Lskip | iniparse/ini.c:33-38 | the text without its leading white space |
| Ini.FindCharOrComment | iniparse/ini.c:43-51 | the first occurrence of the character or of a comment |
| Ini.ParseFile | iniparse/ini.c:62-160 | the loop computes the meaning of the file, with the first error's line |
| Ini.ParseLines | iniparse/ini.c:91-153 | the reader sees the lines that were written if they fit its buffer |
| Ini.KeyLine | iniparse/ini.c:128-147 | a printed line calls the handler with exactly its key |
| Ini.CommentExactly | iniparse/ini.c:104-106 | lines that begin with a semicolon or a hash sign, indented or not, do nothing |
| Ini.ContinuationLine | iniparse/ini.c:108-113 | an indented line behind a pair is one more value for the same name |
| Ini.ColonLine | iniparse/ini.c:128-147 | a colon separates like an equals sign |
| Ini.LongSection | iniparse/ini.c:115-122 | section names are cut at 49 characters |
| Ini.MarkSkipped | iniparse/ini.c:94-102 | a byte order mark in front of the first line does not count |
| Ini.BadLine | iniparse/ini.c:128-151 | a line without a separator is an error |
| Ini.FirstError | iniparse/ini.c:111-151 | the error that is reported is the first one |
| Ini.LongLine | iniparse/ini.c:91-92 | a line of 199 characters or more is read as several |
| Ini.RestoredExactly | iniparse/ini.c:137-141 | a value printed with a blank and a semicolon is read back if and only if it is not empty, trimmed and without white space before a semicolon |
| Settings.TightRestored | settingshandler.c:215-221 | the SDTheme value keeps its semicolon and is read back all the same |
| Settings.NamesMatch | settingshandler.c:101-133 | every printed name is the handler's name for the same field, in other letters |
| Settings.UnknownLine | settingshandler.c:101-133 | a line with an unknown name, or in another section, changes no field and is an error |
| Settings.ReadField | settingshandler.c:101-133 | a printed line sets its field, to the value as it is read back, and no other |
| Settings.ReadBack | settingshandler.c:101-133 | reading the printed file over any record reports no error and leaves the numbers and the two strings as they are read back, with nothing of the old record |
| Settings.RoundTrip | settingshandler.c:215-221 | for fields that each fit one line, reading the printed file reports no error, and restores every field if and only if neither string is empty, untrimmed or with white space before a semicolon |
| Recovery.StoreArgs | recovery.c:246-252 | the field holds the arguments, one per line, as far as they fit |
| Recovery.RereadExactly | recovery.c:184-254 | an argument list is re-read unchanged if and only if it has at most 99 words, none empty or with a newline, and its text is at most 1024 bytes, of which the last newline may be lost |
| Recovery.StepKeeps | recovery.c:297-327 | every step, power loss included, keeps the BCB ahead of the erase |
| Recovery.ResetRestarts | recovery.c:1182-1190 | a partly erased /data never meets a BCB that boots the main system, and the next boot erases again |
| Recovery.ClearedBehindErase | recovery.c:1182-1190 | once recovery has accepted a wipe, whatever power losses follow, the BCB is cleared only behind a completed erase |
| Recovery.ErasedOnlyIfAsked | recovery.c:1182-1190 | nothing is erased unless recovery has accepted a wipe |
| Recovery.PendingCompletes | recovery.c:297-327 | from every point at which a wipe is pending the next boot can complete it and clear BCB and command file |
| Recovery.RequestAccepted | recovery.c:219-254 | a request that survives is accepted at the next boot |
| Recovery.ArgsInOrder | recovery.c:203-222 | arguments in the BCB come first, and without any there the command file counts |
| Recovery.LostRequest | recovery.c:246-252 | a wipe request that the BCB cannot hold leads to a run that ends with a partly erased /data and a cleared BCB |
| Recovery.LongRequestLost | recovery.c:246-252 | a first argument that fills the field pushes --wipe_data out of it |
| Recovery.SafeExactly | recovery.c:109-122 | the reset is safe for a request if and only if storing it does not lose the wipe |
| Recovery.StorableSurvives | recovery.c:184-254 | every storable request survives |

## Left out

- Partition targets and sources in applypatch: the saved copy is overwritten there even when it is the one in use, so the recovery claim is stated for regular files only (`Job.Regular`).
- Zip mode and bonus data of imgdiff and imgpatch: they add preconditions on entry names and chunk positions.
- BsDiff.Search: does not state the longest match, because the code does not find it in general.
- BsDiff.Bsdiff: says nothing about a patch larger than 2^63-1 bytes, which offtout cannot describe.
- BsPatch.ApplyBSDiffPatchMem: says nothing about what happens after a negative length in a control triple or a block behind the end of the patch; the C code then touches memory it does not own.
- ImgDiff.ImgDiff: takes images that, with their padding, are below 2^31 bytes, since chunk lengths and counts go through 4-byte fields; the ImageChunk record, which the program reuses for source data and patch data, is split into Chunk and Entry. For a source that is cut short it says what the patch makes of memory that has zero bytes behind the source; the applier reads whatever is there.
- ImgChunks.ReadImage: says nothing about an image that ends inside a gzip header or more than four bytes before the end of a footer, where the code reads behind its buffer.
- ApplyPatch.StepKeeps: EliminateOpenFiles is not modelled; any subset of the expendable files may be deleted. Contents of unsynced files after a power failure are arbitrary, and rename is atomic.
- ApplyPatch.SaveKeeps: takes fsync of the saved copy as successful; the code ignores its result.
- ApplyPatch.OutputKeeps: takes fsync of the output as successful; the code ignores its result.
- ApplyPatch.GoodExactly: names resolve by their components alone; symbolic and hard links, mount points and relative names are not modelled.
- Appliers.SoundExactly: no other contents have the target digest.
- Partition.LoadPartitionContents: the text between the colons is taken apart already, sizes are unbounded, and for a name without any pair, where the code reads out of bounds, the result is undefined and nothing else is said.
- Transport.StepInv: check_header and check_data are not modelled (any packet may arrive), and close_all_sockets sends some packets without taking sockets apart.
- Sockets.Engine.Handle: the forced end of file of the subprocess fdevent, smart sockets and close_all_sockets racing with the event loop are not modelled; the addresses of freed sockets are not reused.
- FdEvent.Loop.Install: when an fdevent is registered for the fd already (an fd closed behind the loop's back, its number used again), it says that the old one is displaced, and nothing of the ring invariant after that. The epoll variant and fdevent_subproc_setup are not modelled.
- FdEvent.Loop.Update: the select sets take every fd that the table takes, up to 32000; a C fd_set holds FD_SETSIZE bits, and what the code does to the memory behind them is not modelled.
- FdEvent.Loop.Reserve: the new part of the table is empty, as with pointers of the size of an int, for which the memset is written.
- Retouch.MaskCanonical: is about files whose words lie outside the list and the tags; elsewhere only the step-by-step meaning (RetouchMaskData) is stated.
- Dedupe.Gc: says nothing about what is left once an empty manifest file is read, for which the code looks at a line it has not read; fields longer than their buffers are not modelled.
- Backup.BackupSurvives: access and modification times are printed but not restored into the model; blob names are relative to the blob directory; copy failures end the program and are not modelled.
- Ini.ParseFile: a line is a value, so terminating the buffer in place is a function of the line; characters are bytes without NUL.
- Settings.RoundTrip: says nothing about a string with a newline or too long for the reader's 200-byte line, where one printed line is read as several; it is about update_cot_settings and the handler, not about which file is used or what happens when it cannot be opened.
- Recovery.RereadExactly: reading the BCB succeeds (the code ignores the result and goes on with a zeroed one), and the command file's lines have no carriage return, at which the code cuts them.
- Recovery.ResetRestarts: the BCB is written atomically, erases that end succeed, and the firmware update, the ignore-boot-message file and command lines longer than its buffer are not modelled.
- LoadFileContents, WriteToPartition, FreeSpaceForFile, bootloader.c, install.c, verifier.c, edify, nandroid, mounts, flash utilities, all menus and drawing: system calls, user interface or plain recursion.
- malloc failure, logging and tracing everywhere.
