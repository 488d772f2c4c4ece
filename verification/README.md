# A verified model of bbcp and its exFAT driver

bbcp copies files off a failing disk. It carries libexfat, an exFAT driver, walks a file's cluster chain with it, writes
the chain down as a list of extents, and restores from that list, flagging what has been restored so that it can be
stopped and started again. This project models the parts of both that hold state, in Dafny, and proves what they keep.

**The allocator and file content** (`Bitmap`, `Clusters`, `Content`, `Layout`, `Growth`, `Files`, `FileSpec`, `Views`,
`Volumes`, `Runs`, `Calls`). `Volumes.Volume` is a mounted volume: the FAT, the cluster heap, the cluster map as words
of 64 bits, and the nodes. `Layout.Consistent` is its invariant. `FileSpec` is the view from outside: one byte sequence
for each file and a number of free clusters. Every operation is proved against that view, `Runs.WholeRun` lifts it to
whole runs, and `Calls` carries scripts out. The chain of a file has two representations, a flag for "contiguous" or
links in the FAT (section 6.4.2.2 of the exFAT file system specification), and the cached cursor may be anywhere.

**Directories** (`Entries`, `Scanning`, `Acceptance`, `Agreement`, `Upkeep`, `Positions`, `Directories`, `FileRecords`,
`Listed`, `Shrinking`, `Reuse`, `CachedDirectory`, `Labels`, `Updates`, `MakingDirectory`, `Replacing`, `Sharing`,
`Trees`, `Lookup`). A directory is a file of that volume, read and written entry by entry through its chain.
`Acceptance` says in bytes which entries are accepted as a file. `Listed.DirOk` says that the entries of a directory are
laid out properly and are exactly its children in core. `CachedDirectory` has what a call does to the directory itself,
`Updates` adds the flush of its own record in the directory above, `Replacing` is a rename to a name that is taken.
`Sharing.DirectoryOutlives` ties directories to the runs on files. `Trees` is the pointer structure of the nodes,
`Lookup` follows paths and counts references.

A node in core is seen from four sides, each with its own fields: `Volumes.Node` has those about clusters,
`Directories.Kid` the place of the entries and what they say, `Trees.TreeNode` the pointers, `Lookup.Node` the
references.

**Recovery** (`Device`, `Restore`, `Recovery`, `LittleEndian`, `Marshal`, `Storage`, `Sessions`, `Rescue`). From the
chain of a file to the restored file, whether the chain can be followed to its end or not, the list file with its records
updated in place, and runs that are cut off and resumed. `Rescue` joins them: from a volume to the files a run leaves.

**Codecs and arithmetic** (`Utf`, `UtfLoops`, `Calendar`, `Checksum`, `RootDir`). Names, timestamps, checksums and the
chain of the root directory.

Loops and pointers of the source are loops and heap updates here; each is proved against a function or a predicate on
values, and the properties are lemmas about those. To check everything: `dafny verify dfyconfig.toml`.

## Where the code does not do what it is for

- **A wrong test in `grow_file`.** `cluster.c:288` asks whether the next cluster is `previous - 1`; a contiguous file
  needs `previous + 1` (`cluster.c:84-85`). The test is modelled as coded. It goes wrong exactly when a contiguous file
  of one cluster grows and the cluster just before it is the only free one (`Growth.Trap`): the cluster is marked as
  used and belongs to nobody, and the file goes on into a cluster that is not its own. `Volumes.Volume.Truncate` states
  that the volume is consistent afterwards if and only if this did not happen (`Views.Springs`), and so does
  `Volumes.Volume.GenericPwrite` for a write; `Runs.WholeRun` says it of whole runs. `Runs.TrapSprings` gives a volume
  on which it happens, and `Growth.ChoiceAfter` shows that there is no other way. A directory that stands in the trap
  can be searched as long as a vacant run is there; where it is not, lengthening it springs the trap
  (`Directories.SearchSprings`), so `FindSlot` and what is built on it ask for one or the other
  (`Directories.Searchable`). A rename to a name that is taken never has to (`Replacing.Replace`).
- **Sizes beyond 2^32 - 1 clusters.** `bytes2clusters` cuts its quotient to 32 bits; `Layout.Bytes2ClustersExact` says
  exactly when that loses nothing, and the operations ask for it. `Layout.CountCut` is a size for which the count is
  zero; a volume with such a file is never consistent (`Views.OversizeBreaks`), so a call with such a size can leave the
  volume consistent only by failing.
- **The root directory is cut like any other.** A deletion counts only files, so what the volume has in the root, in
  clusters behind the last of them, is cut off; a label can stand there, because it is written into any vacant slot
  (`node.c:1311-1313`).
  `Labels.LabelLost` is such a root, and `Labels.DeletionSurvived` says exactly which entries survive.
- **A rename does not flush the directory it goes to** (`node.c:1229-1238`), even if the search for a slot has
  lengthened it. `Updates.Rename` states that its record in the directory above is out of date if and only if the slot
  had a cost.
- **The year 2100** is a leap year in `time.c` and none in the calendar. `Calendar.GregorianUntil2100` says that from 1
  March 2100 on the days counted are one too many, and before that exact.
- **Names that convert to nothing.** A UTF-8 name whose first character is an overlong form of zero becomes an empty
  UTF-16 name (`Utf.OverlongZero`; `Utf.EmptyName` says exactly which names do). Its entries make the directory
  unreadable (`FileRecords.NameNeeded`), so names are required not to be empty.
- **UTF-8 that is not checked.** Later bytes of a character are not checked and overlong forms are accepted, so a name
  comes back unchanged only in proper form; `Utf.RoundTrip8` says exactly which names do.
- **Listing what is no directory** ends the program (`node.c:100-104`), so a path through a file does; and so does
  splitting a path that has no last component or ends in "." (`lookup.c:221`). Both are the answer `Aborted` here.

## Model

| member | source | states |
|---|---|---|
| Bitmap.FindBitAndSet | exfat.bundle/libexfat/cluster.c:116-139 | The scan by 64-bit words that skips full ones finds and sets exactly the bit that a scan bit by bit finds: the first clear one in the range; if there is none no bit changes |
| Bitmap.CountAfterUpdate | exfat.bundle/libexfat/cluster.c:444-453 | Setting or clearing one bit changes the number of clear bits by one, or not at all if the bit was so already |
| Bitmap.BitWeight | exfat.bundle/libexfat/exfat.h:55-58 | Bit i of a word is the one with the weight of two to the power i |
| Volumes.Volume.AllocateCluster | exfat.bundle/libexfat/cluster.c:196-215 | Sets exactly one clear bit, the first from the hint on (`Growth.HintBit` says which bit that is) and otherwise the first of all; answers END and changes nothing only when every bit is set |
| Volumes.Volume.FreeCluster | exfat.bundle/libexfat/cluster.c:217-227 | Clears the bit of a cluster that has one, and touches nothing for any other number |
| Volumes.Volume.CountFreeClusters | exfat.bundle/libexfat/cluster.c:444-453 | The number of clear bits |
| Volumes.Volume.SetNextCluster | exfat.bundle/libexfat/cluster.c:176-194 | Writes one FAT entry, none for a contiguous file |
| Volumes.Volume.AdvanceCluster | exfat.bundle/libexfat/cluster.c:94-114 | From any cached position of the chain, before or behind, the n-th cluster of the chain; the cursor ends there |
| Volumes.Volume.MakeNoncontiguous | exfat.bundle/libexfat/cluster.c:229-238 | Exactly the links from the first to the last cluster of the run are written, every other FAT entry stays |
| Growth.LinksKeepChain | exfat.bundle/libexfat/cluster.c:229-238 | After those links are written and the contiguous flag is cleared, the file has the chain it had |
| Volumes.Volume.ShrinkFile | exfat.bundle/libexfat/cluster.c:309-363 | The chain keeps its first clusters and ends there, the bits of the others are cleared and no other bit; the cursor goes back to the start |
| Volumes.Volume.FreeChain | exfat.bundle/libexfat/cluster.c:349-362 | The loop that frees: every cluster of the tail loses its bit and its link, in chain order |
| Volumes.Volume.ExtendChain | exfat.bundle/libexfat/cluster.c:275-306 | The loop of grow_file: either all clusters asked for are linked behind the chain, or those already taken are given back; on a full map it takes nothing, whatever state the file is in |
| Volumes.Volume.GrowFile | exfat.bundle/libexfat/cluster.c:243-307 | Succeeds exactly when enough clusters are free. Outside the trap the old chain is a prefix of the new one and the new clusters were free, or, refused, chain, map and free count are what they were, whether the file was empty, contiguous or linked. In the trap a cluster is leaked |
| Growth.GrowUndone | exfat.bundle/libexfat/cluster.c:281-287 | Rolling back after some clusters were taken restores the chain, the map and the free count exactly |
| Growth.GrowingUndone | exfat.bundle/libexfat/cluster.c:281-287 | The same for the invariant of the loop, case by case of how the file was recorded |
| Growth.ChoiceAfter | exfat.bundle/libexfat/cluster.c:288-297 | A contiguous file can be given the cluster before its last one only if that is the single free cluster: the coded test is wrong nowhere else |
| Growth.GrownNotTrapped | exfat.bundle/libexfat/cluster.c:243-307 | A file that has taken clusters does not stand in the trap |
| Volumes.Volume.EraseRange | exfat.bundle/libexfat/cluster.c:375-408 | From `begin` to the end of its cluster or of the last cluster the file holds zeros, nothing else in any cluster changes, and the cursor stays valid |
| Volumes.Volume.Truncate | exfat.bundle/libexfat/cluster.c:410-442 | The volume is consistent afterwards if and only if the trap was not sprung; then truncation succeeds exactly when there is room, keeps the common prefix, zero-fills a new tail if asked, changes no other file, and on failure changes nothing; chains keep their common prefix and other chains stay. Sprung, it leaves a leaked cluster; asked again of such a file, it grows within the clusters the file has or refuses |
| Views.ChainsEnd | exfat.bundle/libexfat/cluster.c:410-442 | A truncation keeps every other chain, and its own as far as both sizes reach |
| Views.TruncatedLonger | exfat.bundle/libexfat/cluster.c:410-442 | Growing and erasing, seen from outside: old bytes, then zeros |
| Views.TruncatedShorter | exfat.bundle/libexfat/cluster.c:410-442 | Shrinking, seen from outside: the first bytes |
| Views.TruncationRefused | exfat.bundle/libexfat/cluster.c:281-287 | A truncation refused for lack of room leaves every file and the free count as they looked |
| Views.LeakBreaksAnySize | exfat.bundle/libexfat/cluster.c:288-297 | Growing in the trap leaks a cluster, and no size given to the file makes the volume consistent |
| Views.LeakyBroken | exfat.bundle/libexfat/cluster.c:288-297 | As long as that cluster is marked and no other file has it, the volume is not consistent, so nothing done to the file itself mends it |
| Views.OversizeBreaks | exfat.bundle/libexfat/cluster.c:68-72 | No volume with a file of more than 2^32 - 1 clusters is consistent: the source accepts such sizes, and a truncation to one can keep the invariant only by failing |
| Runs.TrapSprings | exfat.bundle/libexfat/cluster.c:288-297 | The trap exists: on a concrete consistent volume, growing a file for which there is room breaks the invariant |
| Layout.Bytes2ClustersExact | exfat.bundle/libexfat/cluster.c:68-72 | The 32-bit count of clusters is exact if and only if at most 2^32 - 1 clusters are asked for |
| Layout.CountCut | exfat.bundle/libexfat/cluster.c:68-72 | At 2^32 clusters of 512 bytes the count is zero, at one more it is one |
| Layout.OnlyFileKeepsConsistent | exfat.bundle/libexfat/cluster.c:243-363 | A change confined to one file, its bits and clusters that belong to nobody else keeps the invariant of the whole volume |
| Layout.OtherBytesKept | exfat.bundle/libexfat/cluster.c:243-442 | Such a change keeps the content of every other file |
| Volumes.Volume.GenericPread | exfat.bundle/libexfat/io.c:279-322 | Returns exactly the slice of the file that lies in the range (byte by byte in `FileSpec.SliceBytes`), and nothing of the volume but the cursor changes, no chain either |
| Volumes.Volume.PutBytes | exfat.bundle/libexfat/io.c:356-369 | The loop of pwrite: the bytes are put over the old ones in the right clusters and nothing else changes |
| Volumes.Volume.GenericPwrite | exfat.bundle/libexfat/io.c:324-370 | The volume is consistent afterwards if and only if making the file as long as the write reaches does not spring the trap. Then: old bytes, zeros in a gap up to the offset, the buffer, any old tail; no other file changes; without room either nothing changes or only the gap has been filled, exactly as the specification on byte sequences says |
| Views.WrittenView | exfat.bundle/libexfat/io.c:356-369 | Writing inside a chain splices the bytes of that file and of no other |
| FileSpec.WrittenBytes | exfat.bundle/libexfat/io.c:324-370 | What writing means on byte sequences, byte by byte: there is room if and only if the size it leads to needs no more clusters than there are; the written bytes, zeros in the gap, the old bytes elsewhere; what a failure can leave |
| Runs.CalledPerforms | exfat.bundle/libexfat/io.c:279-370 | One call keeps the invariant if and only if it does not spring the trap, and then refines one step on byte sequences and a count of free clusters |
| Calls.Call | exfat.bundle/libexfat/io.c:279-370 | Each command, carried out by truncation, write or read on the mounted volume, does what is promised of a call |
| Runs.WholeRun | exfat.bundle/libexfat/io.c:279-370 | A run of truncations, reads and writes over any number of files keeps the invariant throughout if and only if none of its calls springs the trap, and then gives the replies and contents of the same run on plain byte sequences |
| Calls.CallAll | exfat.bundle/libexfat/io.c:279-370 | A script run on the mounted volume that never grows a file when exactly one cluster is free leaves it consistent, and answers and ends as the same script on plain byte sequences |
| Sharing.DirectoryOutlives | exfat.bundle/libexfat/io.c:279-370 | Any such run on other files leaves a directory laid out as it was and its children in core true to it |
| Sharing.CalledOthers | exfat.bundle/libexfat/io.c:279-370 | One call on a file changes neither content nor chain nor fields of any other file |
| Runs.InvariantMeans | exfat.bundle/libexfat/cluster.c:217-442 | The invariant in plain words: chains have ceil(size / cluster size) clusters and no duplicates, are pairwise disjoint, start at FREE exactly for empty files, and the set bits are exactly the reserved clusters and the clusters of chains |
| Runs.ConsistentIs | exfat.bundle/libexfat/cluster.c:217-442 | If and only if: a volume is consistent exactly when its tables have their sizes, every chain and cursor is sound, no cluster is in two chains or reserved and in one, and a bit is set for exactly the reserved clusters and those of chains |
| Runs.ChainMeans | exfat.bundle/libexfat/cluster.c:74-114 | A chain in plain words: it begins at the start, has the size divided by the cluster size and rounded up, each cluster is followed by the next number or by its FAT entry, and the entry of the last one of a linked chain marks the end |
| Runs.BytesMean | exfat.bundle/libexfat/io.c:292-313 | Byte i of a file is in its cluster number i / cluster size, at the remainder |
| Positions.NextHere | exfat.bundle/libexfat/node.c:140-168 | Moving on by one entry follows the chain: the iterator is always in the cluster that holds its entry |
| Positions.EntryHere | exfat.bundle/libexfat/node.c:202-207 | What the iterator reads is the entry of the directory at its offset |
| Positions.WriteHere | exfat.bundle/libexfat/node.c:90-93 | Bytes written at an entry's place on the device change that entry of that directory, and no other byte of any file |
| Directories.Opendir | exfat.bundle/libexfat/node.c:95-130 | The iterator starts at the first entry |
| Directories.FetchNextEntry | exfat.bundle/libexfat/node.c:140-168 | The iterator moves on by one entry, with its cluster in hand, up to the end of the directory |
| Directories.NextEntry | exfat.bundle/libexfat/node.c:661-676 | The same for a bare position |
| Scanning.MetaTaken | exfat.bundle/libexfat/node.c:343-397 | The first two entries of a good record are taken, one after the other, with its fields, its checksum so far and the name entries still to come |
| Scanning.TakeName | exfat.bundle/libexfat/node.c:399-422 | Each name entry of a good record is taken in turn; the last one completes the file, with the fields the record stands for |
| Agreement.QuietTaken | exfat.bundle/libexfat/node.c:340-548 | An entry out of use, or one of the volume's own, changes nothing between two files |
| Directories.Readdir | exfat.bundle/libexfat/node.c:307-559 | The loop over entries finds what the recursive scan finds: the next file, the end, or a malformed set, and where the file begins; `Acceptance` says in bytes what that scan accepts |
| Acceptance.SetAccepted | exfat.bundle/libexfat/node.c:209-281 | In bytes and numbers: a set of entries in form is accepted if and only if its checksum is right, its valid size is not above its size, a size of zero goes with start zero and no contiguous flag, any other with a start from 2 to 0xfffffff6, and a directory has a multiple of the cluster size; what is read are the bytes at their places, the name unit by unit; otherwise the set is malformed |
| Acceptance.OutOfForm | exfat.bundle/libexfat/node.c:340-548 | Entry by entry, what is not in form: which types, counts and flags make a set malformed wherever they stand, which entries are passed over, and how a listing ends |
| Acceptance.RecordAccepted | exfat.bundle/libexfat/node.c:209-281 | The records of a directory in order are exactly those whose entries are in form and in order |
| Acceptance.SetRecorded | exfat.bundle/libexfat/node.c:307-559 | And every set in form and in order is such a record, if its name takes all of its name entries and these have nothing but the name |
| Directories.CacheDirectory | exfat.bundle/libexfat/node.c:561-603 | All files of the directory in order, each with the place of its first entry; refused exactly when some set is malformed |
| Scanning.ScanSet | exfat.bundle/libexfat/node.c:307-559 | The entries of a good record are read as that record: checksum accepted, name and fields back |
| Entries.NameSlotBack | exfat.bundle/libexfat/node.c:980-994 | The fifteen units of a name entry come back |
| Agreement.ScanFinds | exfat.bundle/libexfat/node.c:307-559 | In a directory that is laid out properly a scan finds the first file from its position on, never anything malformed |
| Agreement.ListsAll | exfat.bundle/libexfat/node.c:561-603 | Reading such a directory through lists exactly its files, in order of place, each once |
| CachedDirectory.ReadAgain | exfat.bundle/libexfat/node.c:561-603 | Reading a directory again yields exactly the children it has in core, each once, in the same places, under the same names, with the fields the entries record and every checksum accepted |
| CachedDirectory.CachedAgrees | exfat.bundle/libexfat/node.c:561-603 | What has been read are the files of the directory, with the fields their entries record |
| CachedDirectory.Directory.constructor | exfat.bundle/libexfat/node.c:561-603 | A directory just read agrees with its entries, field by field |
| CachedDirectory.Directory.Create | exfat.bundle/libexfat/node.c:1021-1034 | Keeps agreement; succeeds exactly when a slot is there or can be paid for; then the new child is in front, empty, with the attributes and name asked for, on the disk exactly its record is new, its second entry has the length of the name and the hash, and exactly the cost of the slot is gone from the free clusters; on failure the children are as before; every other file is untouched. That every record of the directory says the length of its name is kept |
| Updates.Create | exfat.bundle/libexfat/node.c:1004-1039 | The same with the flush of the directory's own record in the directory above: of its children only that one changes, and it says what the directory has become, in core and read again |
| CachedDirectory.CreatedRead | exfat.bundle/libexfat/node.c:947-998 | Read again, a new file is empty and has the attributes and the name asked for |
| MakingDirectory.MakeDirectory | exfat.bundle/libexfat/node.c:1046-1074 | Create, first cluster, flush: succeeds exactly when one more cluster is free than the slot costs; then the directory has the new one in front, in core and read again with its cluster and size, and the new directory is properly laid out and empty; without room for entries or cluster it has the children and records it had; the directory above follows; other files are untouched |
| MakingDirectory.FirstCluster | exfat.bundle/libexfat/node.c:1058-1059 | An empty file given its first cluster is an empty directory, exactly when a cluster is free |
| MakingDirectory.EmptyDirectory | exfat.bundle/libexfat/node.c:307-559 | A directory full of zeros is laid out properly and has no children |
| CachedDirectory.WriteEntry | exfat.bundle/libexfat/node.c:930-1002 | The entries written over vacant ones add exactly that file; in the second of them byte 3 is the length of the name, bytes 4 and 5 its hash |
| CachedDirectory.Directory.Delete | exfat.bundle/libexfat/node.c:828-853 | Keeps agreement and always succeeds; exactly that child is gone, in core and from the records on the disk; the directory keeps its entries, the child's no longer in use, and has exactly the size that the other children decide: as before if one lies behind, otherwise the clusters up to the end of the last one, at least one; every other file is untouched, and a set of as many entries can be written again |
| Updates.Delete | exfat.bundle/libexfat/node.c:828-853 | The same with the flush of the directory's own record in the directory above |
| Updates.FlushParent | exfat.bundle/libexfat/node.c:678-743 | A directory's record in the directory above gets its size, start and flag, in core and on the disk; no other child of either changes |
| Reuse.VacatedReusable | exfat.bundle/libexfat/node.c:783-826 | Where a set of entries has been erased and the directory cut, as many entries will be found again: they are still there, or the clusters cut off pay for them |
| Labels.DeletionSurvived | exfat.bundle/libexfat/node.c:783-826 | An entry that was not the deleted child's, such as one of the volume's own in the root, is still there if and only if it ends within that size |
| Labels.LabelLost | exfat.bundle/libexfat/node.c:1298-1322 | A root directory in order, with a label in use behind its only file: deleting the file cuts the label off |
| CachedDirectory.EraseKid | exfat.bundle/libexfat/node.c:745-781 | Exactly that child's entries are no longer in use, and vacant room stays vacant |
| Directories.EraseEntry | exfat.bundle/libexfat/node.c:745-781 | Every entry of the file loses its bit for "in use" and nothing else changes |
| CachedDirectory.Directory.Rename | exfat.bundle/libexfat/node.c:1229-1238 | In one directory or from one to another: succeeds exactly when the target has a slot or can pay for it; both keep agreement, the child is gone from the old place and in front at the new one with everything but its name unchanged, in core and in its record; on failure both are as before; other files are untouched |
| Updates.Rename | exfat.bundle/libexfat/node.c:1229-1238 | The directory the file goes to is not flushed: its record in the directory above stays as it is, and is out of date afterwards if and only if the slot had a cost |
| Replacing.Replace | exfat.bundle/libexfat/node.c:1186-1238 | Renaming to a name that is taken: refused, with the answer of the kinds and the emptiness (always, if what is in the way is the directory the file is in), or what had the name is gone with its clusters and the file has taken its place; between files of one kind it always succeeds, on a full volume and in the trap too; the directory above the target follows the removal; no other file changes |
| Replacing.MakeWay | exfat.bundle/libexfat/node.c:1189-1225 | What is in the way goes exactly when it is of the same kind and no directory with children; its entries leave the directory, which is cut as by any deletion, and its clusters are freed |
| Lookup.SameButCaseLength | exfat.bundle/libexfat/lookup.c:62-78 | Names that are the same but for case are equally long, so the new name takes no more entries than the one it replaces |
| CachedDirectory.RenameEntry | exfat.bundle/libexfat/node.c:1076-1147 | The same for the part that moves the entries; byte 3 of the second entry is the length of the new name, bytes 4 and 5 its hash |
| CachedDirectory.RenamedRead | exfat.bundle/libexfat/node.c:1088-1141 | Read again, a renamed file has its new name and otherwise what it had |
| CachedDirectory.RenamedEntries | exfat.bundle/libexfat/node.c:1088-1141 | The entries read from the old place, with the new name, continuation count, hash and checksum |
| CachedDirectory.Directory.Flush | exfat.bundle/libexfat/node.c:678-743 | Keeps agreement; only the record of that child changes, and it gets the fields from core |
| CachedDirectory.FlushKid | exfat.bundle/libexfat/node.c:702-739 | Reading, changing and writing back the two meta entries replaces the record in place |
| CachedDirectory.FlushedRead | exfat.bundle/libexfat/node.c:678-743 | Read again, the child has the fields that were in core |
| CachedDirectory.LengthOnDisk | exfat.bundle/libexfat/node.c:959-961 | In a directory whose records say the lengths of their names, which create, delete, rename and flush keep, byte 3 of the second entry of every child is the length of its name |
| FileRecords.NewGood | exfat.bundle/libexfat/node.c:947-998 | A new file's entries are accepted and say: empty, no cluster, the attributes asked for |
| FileRecords.NewBytes | exfat.bundle/libexfat/node.c:944-964 | Every byte of the two first entries of a new file, by its place: types, count of entries, attributes, the same time three times, flag, length of the name, hash, zeros |
| FileRecords.NameEntryBytes | exfat.bundle/libexfat/node.c:978-994 | Every byte of its name entries |
| FileRecords.NameNeeded | exfat.bundle/libexfat/node.c:354-358 | The entries of a new file are accepted if and only if its name is not empty; with an empty one the directory can no longer be read |
| FileRecords.RenamedGood | exfat.bundle/libexfat/node.c:1088-1105 | A renamed file's entries are accepted and keep every field but the name |
| FileRecords.RenamedBytes | exfat.bundle/libexfat/node.c:1102-1105 | A rename changes the count of entries, the length of the name and the hash, by their places, and no other byte but the checksum |
| FileRecords.FlushedGood | exfat.bundle/libexfat/node.c:709-728 | A flushed file's entries are accepted and say what is in core |
| FileRecords.FlushedBytes | exfat.bundle/libexfat/node.c:709-728 | A flush changes attributes, times, flag, sizes and first cluster, by their places, and no other byte but the checksum |
| FileRecords.CalcChecksum | exfat.bundle/libexfat/utils.c:75-93 | The sum over the two meta entries and the name entries built from the name in core |
| FileRecords.SummedRight | exfat.bundle/libexfat/utils.c:75-93 | The checksum put into a set is the checksum of the set it is put into |
| Directories.FindSlot | exfat.bundle/libexfat/node.c:885-928 | Succeeds exactly when a run of vacant entries of the length asked for is there or there is room to lengthen the directory by what its vacant end lacks. It answers the first such run and changes nothing, or the vacant end of the directory, lengthened once by exactly the whole zeroed clusters needed; on failure everything is as before; it terminates |
| Directories.SlotNeeds | exfat.bundle/libexfat/node.c:896-924 | What that is in numbers: nothing if so many entries in a row are out of use, otherwise the least number of clusters that hold those missing behind the ones out of use at the end |
| Directories.SearchSprings | exfat.bundle/libexfat/node.c:896-924 | Where its precondition does not hold, that lengthening springs the trap and the volume is not consistent afterwards |
| Directories.GrowDirectory | exfat.bundle/libexfat/node.c:877-883 | A truncation to the size rounded up to whole clusters; unless it springs the trap it succeeds exactly when that many clusters are free, whole clusters of vacant entries are added, or nothing changes |
| Shrinking.ShrinkDirectory | exfat.bundle/libexfat/node.c:783-826 | It never fails; the size is exactly what the children left decide: as before if one lies behind the deleted entries, otherwise whole clusters up to the end of the last child, at least one; if that is the size already nothing changes, otherwise the first entries stay and the clusters behind are free; other files are untouched |
| Shrinking.EntrySurvives | exfat.bundle/libexfat/node.c:783-826 | Any entry, a file's or one of the volume's own, is still there if and only if it ends within that size |
| Shrinking.UsedIsEnd | exfat.bundle/libexfat/node.c:796-817 | The end of the child that begins last, which the source takes, is the furthest end of all |
| Shrinking.CutLeast | exfat.bundle/libexfat/node.c:796-822 | That size in numbers: nothing is cut off while a child lies behind; otherwise the least positive number of whole clusters in which the entries of every child end |
| Shrinking.CountEntries | exfat.bundle/libexfat/node.c:796-817 | The walk over the children finds the one furthest back, unless one lies behind the deleted entries |
| Upkeep.LaidErased | exfat.bundle/libexfat/node.c:745-781 | Deleting a file's entries takes that file and no other out of the directory |
| Upkeep.LaidWritten | exfat.bundle/libexfat/node.c:966-994 | Writing a file's entries over vacant ones puts that file and no other into it |
| Upkeep.LaidRewritten | exfat.bundle/libexfat/node.c:730-739 | Rewriting the fields of a file in place changes that file only |
| Upkeep.LaidCut | exfat.bundle/libexfat/node.c:783-826 | Cutting behind the last file loses none |
| Listed.DirOkElsewhere | exfat.bundle/libexfat/node.c:828-1239 | Work on one directory or file leaves every other directory in agreement |
| Trees.NodeTree.TreeAttach | exfat.bundle/libexfat/node.c:605-614 | Exactly the pointers of the node, the directory and its former first child change, as for a node put in front of a list |
| Trees.NodeTree.TreeDetach | exfat.bundle/libexfat/node.c:616-627 | Exactly the pointers of the node and its neighbours change, as for a node taken out of a list |
| Trees.NodeTree.Create | exfat.bundle/libexfat/node.c:999-999 | Exactly the pointers of the new node, the directory and its former first child are set, as for a node put in front of the list, and the tree stays one |
| Trees.NodeTree.Unlink | exfat.bundle/libexfat/node.c:855-860 | Refused for a directory; otherwise the file is out of its list and the tree stays one |
| Trees.NodeTree.Rmdir | exfat.bundle/libexfat/node.c:862-875 | Refused for a file and for a directory with children; otherwise it is out and the tree stays one |
| Trees.NodeTree.MakeWay | exfat.bundle/libexfat/node.c:1186-1225 | What is in the way of a renamed node goes exactly when both are files or both directories and it is empty; otherwise the answer says which of these fails |
| Trees.NodeTree.IsAbove | exfat.bundle/libexfat/node.c:1170-1184 | The climb from the target terminates and finds exactly whether the source is the target directory or above it |
| Trees.NodeTree.Rename | exfat.bundle/libexfat/node.c:1149-1239 | The answer, exactly: invalid when a directory would go below itself, the answer about what is in the way, no room, or success; whatever happens the tree stays one, and exactly the lists concerned change |
| Trees.TreeMoved | exfat.bundle/libexfat/node.c:1144-1145 | Moving a node, with all below it, to a directory that is not below it keeps every list well formed and every chain of parents finite |
| Trees.TreeAttached | exfat.bundle/libexfat/node.c:605-614 | Attaching keeps the tree |
| Trees.TreeDetached | exfat.bundle/libexfat/node.c:616-627 | Detaching a node without children keeps the tree |
| Trees.RootAbove | exfat.bundle/libexfat/node.c:605-627 | Every node that has a parent has the root above it |
| Trees.RootNotMoved | exfat.bundle/libexfat/node.c:1170-1184 | The root is never moved |
| Lookup.CompareName | exfat.bundle/libexfat/lookup.c:62-78 | Zero exactly for names that are the same but for case |
| Lookup.SameButCaseFolds | exfat.bundle/libexfat/lookup.c:62-78 | With a table that folds nothing else to what zero folds to, that is equality of the folded names |
| Lookup.CalcNameHash | exfat.bundle/libexfat/utils.c:116-134 | The loop computes the hash of the name up to its zero |
| Lookup.HashIs | exfat.bundle/libexfat/utils.c:125-132 | Unit by unit, in numbers: low byte and high byte of the folded unit are taken in, each after a turn by one bit |
| Lookup.SameHash | exfat.bundle/libexfat/utils.c:116-134 | Names that are the same but for case have the same hash |
| Lookup.FileSystem.CacheDirectory | exfat.bundle/libexfat/node.c:561-603 | A directory that has been read keeps its children; another gets one node for each file in it, in order; no references change, and which error comes when |
| Lookup.FileSystem.Opendir | exfat.bundle/libexfat/lookup.c:28-40 | One reference to the directory on success, none on failure; directories already read stay as they are |
| Lookup.FileSystem.Readdir | exfat.bundle/libexfat/lookup.c:49-60 | The next child, with one reference, or none at the end |
| Lookup.FileSystem.Closedir | exfat.bundle/libexfat/lookup.c:42-47 | The reference to the directory is given back |
| Lookup.LookupName | exfat.bundle/libexfat/lookup.c:80-107 | The first child of that name with one reference more and no other reference left behind; otherwise no reference is left and the answer says why: the name does not convert, no child has it, or the directory cannot be listed |
| Lookup.GetComp | exfat.bundle/libexfat/lookup.c:109-119 | Splits off exactly the next component of the path |
| Lookup.ComponentsAre | exfat.bundle/libexfat/lookup.c:109-119 | The components of any path: the runs between slashes, in order, however many slashes there are |
| Lookup.Lookup | exfat.bundle/libexfat/lookup.c:121-145 | For any path: on success the node the components lead to from the root, with one reference more; on failure no reference more, and the components stop at the one the answer is about. `Lookup.LeadsFrom` says what one component does, "." included |
| Lookup.LeadsOnce | exfat.bundle/libexfat/lookup.c:121-145 | A path leads to one node only, and directories read between two lookups change nothing about that |
| Lookup.LeadsNotStops | exfat.bundle/libexfat/lookup.c:121-145 | A path that leads to a node stops nowhere, so the state decides the answer |
| Lookup.IsAllowed | exfat.bundle/libexfat/lookup.c:154-174 | Exactly the names without forbidden characters (`Lookup.ForbiddenAre` lists them) |
| Lookup.SplitPath | exfat.bundle/libexfat/lookup.c:176-222 | For any path whose last component is not ".": on success the directory all but the last component lead to, and the first child of the last name or none if there is none, with one reference more on each; on failure no reference more, and the reason. Any other path never succeeds: it stops on the way, with the reason and no reference more, or it leads to a node and the program ends with a reference to that |
| Lookup.SplitLast | exfat.bundle/libexfat/lookup.c:189-211 | The last component: refused for a forbidden character or an illegal name, otherwise converted and looked up |
| Utf.RoundTrip16 | exfat.bundle/libexfat/utf.c:104-222 | A name that leaves the disk in UTF-8 comes back as it was, and contains no zero |
| Utf.Accepted | exfat.bundle/libexfat/utf.c:85-128 | With three bytes for every unit a name is converted if and only if its surrogates are paired, and never needs more |
| Utf.RoundTrip8 | exfat.bundle/libexfat/utf.c:104-222 | A zero-free name from outside comes back as it was if and only if every character is in its proper form |
| Utf.RoundTripWellFormed | exfat.bundle/libexfat/utf.c:104-222 | Every well-formed zero-free UTF-8 name (section 3 of RFC 3629) comes back |
| Utf.LeavesProper | exfat.bundle/libexfat/utf.c:104-128 | Whatever leaves the disk is in proper form |
| Utf.EmptyName | exfat.bundle/libexfat/utf.c:198-222 | A name from outside converts to an empty one if and only if it is empty or starts with what decodes to zero |
| Utf.OverlongZero | exfat.bundle/libexfat/utf.c:130-222 | The two bytes c0 80, neither of them zero, convert to an empty name |
| Utf.Got8 | exfat.bundle/libexfat/utf.c:26-179 | Decoding undoes encoding for each of the 2^31 characters, whatever follows |
| Utf.Got16 | exfat.bundle/libexfat/utf.c:85-196 | The same for UTF-16 and each character it can carry |
| Utf.UnitsAre | exfat.bundle/libexfat/utf.c:85-102 | In numbers: a pair stands for 0x10000 and ten bits of each half, the first half high; a first half without a second one is refused; any other unit stands for itself |
| Utf.ShortPut8 | exfat.bundle/libexfat/utf.c:26-56 | The UTF-8 bytes of characters up to 0x1fffff, in numbers |
| Utf.LongPut8 | exfat.bundle/libexfat/utf.c:57-80 | And of those above |
| UtfLoops.WcharToUtf8 | exfat.bundle/libexfat/utf.c:26-83 | Writes the UTF-8 form of a character, or nothing if there is no room |
| UtfLoops.Utf16ToWchar | exfat.bundle/libexfat/utf.c:85-102 | Reads one character, a pair or a unit |
| UtfLoops.Utf8ToWchar | exfat.bundle/libexfat/utf.c:130-179 | Reads one character of one to six bytes |
| UtfLoops.WcharToUtf16 | exfat.bundle/libexfat/utf.c:181-196 | Writes one or two units, or nothing if there is no room |
| UtfLoops.Utf16ToUtf8 | exfat.bundle/libexfat/utf.c:104-128 | Converts as specified, with the error that comes first, and writes nothing past its bound and the final zero |
| UtfLoops.Utf8ToUtf16 | exfat.bundle/libexfat/utf.c:198-222 | The same in the other direction |
| Calendar.Exfat2Unix | exfat.bundle/libexfat/time.c:56-106 | The seconds the calendar counts, month by month and year by year, for every accepted stamp; zero for any other |
| Calendar.Unix2Exfat | exfat.bundle/libexfat/time.c:108-149 | The stamp of the calendar for that second, for every timezone; the start of 1980 for an earlier one, and beyond the 128 years what the cut to 7 bits leaves |
| Calendar.MonthsClosed | exfat.bundle/libexfat/time.c:50-54 | The table in the source and the leap day against the lengths of the months |
| Calendar.YearsClosed | exfat.bundle/libexfat/time.c:43-48 | The closed form of the days before a year against the years counted out |
| Calendar.RoundTripTime | exfat.bundle/libexfat/time.c:56-149 | A time goes through the disk unchanged if and only if it lies in the 46752 days; an earlier one comes back as the start of 1980, a later one as many times 128 years earlier as it takes |
| Calendar.GregorianUntil2100 | exfat.bundle/libexfat/time.c:43-54 | The day counted for a date is that of the Gregorian calendar if and only if the date is before 1 March 2100, and one too many after |
| Calendar.UnixSeconds | exfat.bundle/libexfat/time.c:56-106 | In numbers, from the fields' bits on: which stamps are accepted, and that an accepted one before March 2100 is the timezone and the seconds from 1 January 1970 with the years counted one by one by the Gregorian rule; a later one is a day more |
| Calendar.UnixSecondsBack | exfat.bundle/libexfat/time.c:108-149 | The inverse: what is written for a second of the 128 years is a date and time that stands for it by that count; for an earlier one the start of 1980 |
| Calendar.OneDayTooMany | exfat.bundle/libexfat/time.c:43-54 | 29 February 2100 is the only day the code's calendar has that there is not |
| Calendar.RoundTripStamp | exfat.bundle/libexfat/time.c:56-149 | A date of the calendar goes through memory unchanged but for centiseconds rounded down to whole seconds |
| Calendar.StoredOnce | exfat.bundle/libexfat/time.c:108-149 | No two stamps of the form written stand for the same second |
| Calendar.DecodedInOrder | exfat.bundle/libexfat/time.c:56-106 | Decoding is strictly monotone in date, time and odd second, both ways |
| Calendar.BeyondRange | exfat.bundle/libexfat/time.c:56-106 | No stamp of the calendar stands for a second outside the 46752 days |
| Checksum.StepBijective | exfat.bundle/libexfat/utils.c:63-63 | Each rotate-and-add step is a bijection of the sums |
| Checksum.SumIs | exfat.bundle/libexfat/utils.c:63-93 | In numbers, for both widths: the sum is turned right by one bit, the byte is added, and what does not fit is dropped |
| Checksum.OneByte | exfat.bundle/libexfat/utils.c:66-73 | Changing one byte of any text changes its sum |
| Checksum.SkippingSum | exfat.bundle/libexfat/utils.c:55-64 | A change of one byte is noticed if and only if its place is not skipped |
| Checksum.StartChecksum | exfat.bundle/libexfat/utils.c:55-64 | The sum over all bytes but the skipped ones, for both widths |
| Checksum.AddChecksum | exfat.bundle/libexfat/utils.c:66-73 | The sum goes on over all bytes, for both widths |
| Checksum.VerifyVbrChecksum | exfat.bundle/libexfat/mount.c:108-143 | Accepts exactly the boot regions whose twelfth sector repeats the sum of the first eleven in every word |
| Checksum.BootInBytes | exfat.bundle/libexfat/utils.c:95-114 | In numbers: that sum is over the first eleven sectors in order without bytes 106, 107 and 112 of the first, and every four bytes of the twelfth repeat it, lowest first |
| Checksum.BootSensitive | exfat.bundle/libexfat/utils.c:95-114 | An accepted boot region is rejected after a change of any one byte of its twelve sectors, except for the three that are meant to change |
| RootDir.RootdirSize | exfat.bundle/libexfat/mount.c:31-59 | Terminates on every FAT; n times the cluster size exactly when the chain ends after n valid clusters with n at most the number of clusters, zero otherwise |
| RootDir.CycleNeverEnds | exfat.bundle/libexfat/mount.c:31-59 | A chain that comes back to a cluster never ends, so its size is zero |
| RootDir.EndsOnce | exfat.bundle/libexfat/mount.c:31-59 | A chain ends after one number of clusters only |
| Device.OffsetOfCluster | exfat.bundle/libexfat/cluster.c:31-54 | Where a cluster lies on the device |
| Device.SectorRoundTrip | exfat.bundle/libexfat/cluster.c:39-63 | Every sector of a cluster is mapped back to it |
| Device.NoClusterOffset | exfat.bundle/libexfat/cluster.c:39-54 | Offset zero stands for "no cluster", exactly |
| Device.ClustersApart | exfat.bundle/libexfat/cluster.c:51-54 | Clusters do not overlap on the device |
| Restore.CountsAgree | src/ExfatNode.cpp:83-88 | The recovery tool counts clusters as libexfat does |
| Restore.GetOffsets | src/ExfatNode.cpp:90-134 | The extents of the chain with the last one cut to size; where the chain is lost after k clusters, these k as whole clusters and an empty extent; one empty extent for an empty file |
| Restore.ReadPartition | src/Processor.cpp:65-70 | The bytes of the extent, or failure and zeros |
| Restore.RecoverUnit | src/Processor.cpp:50-80 | The pieces up to the first failure or all of them with zeros for failures, by mode |
| Recovery.NothingLost | src/ExfatNode.cpp:90-134 | The extent list of a file of a consistent volume is never cut short |
| Recovery.BlocksRecovered | src/Processor.cpp:50-80 | What the pieces of a file add up to, in either mode |
| Recovery.RestoredFile | src/Processor.cpp:50-80 | End to end: a readable file comes back byte for byte, empty ones included; restoring all gives the same length with zeros exactly where nothing could be read; restoring only what is good gives the whole-cluster prefix before the first failure |
| Recovery.LostExactly | src/Processor.cpp:65-74 | Which bytes are lost: exactly those of a cluster, as far as the file has it, that meets a bad sector |
| Recovery.LostChainRecovered | src/ExfatNode.cpp:115-124 | Of a chain that is lost after some clusters, exactly the bytes of these clusters come back if they can be read, in either mode |
| Rescue.RunRestores | src/Processor.cpp:26-88 | A run over units made of a consistent volume's files leaves each of these files as its mode promises |
| Marshal.NameRoundTrip | src/Marshal.cpp:8-26 | A name comes back if and only if it has no zero in it |
| Marshal.ListRoundTrip | src/Marshal.cpp:50-104 | An extent list comes back from the front of whatever it stands in |
| Marshal.RecordRoundTrip | src/Marshal.cpp:107-146 | A record comes back, and the cursor ends behind it |
| Marshal.RecordBytes | src/Marshal.cpp:8-124 | Where each field of a record is: the name and a zero, eight bytes for the count, sixteen for each extent, one for the flag |
| Marshal.MarshalString | src/Marshal.cpp:8-18 | The bytes of the name up to its first zero, then zero, then whatever was in the buffer |
| Marshal.MarshalOffsets | src/Marshal.cpp:50-75 | The count and the extents, in order |
| Marshal.UnmarshalString | src/Marshal.cpp:21-26 | The name up to its zero, the cursor behind it |
| Marshal.UnmarshalOffsets | src/Marshal.cpp:78-104 | The extents, the cursor behind them |
| Marshal.UnmarshalRecord | src/UnitStorage.cpp:66-77 | One record of the list file |
| Storage.Unit.Marshal | src/Unit.cpp:37-43 | The bytes of the unit's record |
| Storage.Unit.SyncMe | src/Unit.cpp:29-34 | Exactly the bytes of the unit's record are overwritten |
| Storage.Unit.SetProcessed | src/Unit.cpp:45-49 | The flag is set, and the record in the mapped file has it |
| Storage.Store | src/UnitStorage.cpp:46-53 | The file is the records of all units one after the other |
| Storage.Load | src/UnitStorage.cpp:55-81 | Loading what was stored gives the same units, each tied to the offset where its record begins |
| Storage.ReadBack | src/UnitStorage.cpp:64-78 | At the sum of the lengths before it, each record reads back |
| Storage.PackedUpdate | src/Unit.cpp:45-49 | Flagging a unit rewrites its own record at unchanged length and nothing else |
| Storage.PlaceKept | src/Unit.cpp:45-49 | And moves no other record |
| Storage.TornUpdate | src/Unit.cpp:29-34 | Interrupted after any number of bytes, the rewriting has left the old list or the new one |
| Sessions.Processor.ProcessUnit | src/Processor.cpp:26-47 | A flagged unit is passed over; the file of another one becomes what its extents give in the mode of the job, and it is flagged in memory and in the file |
| Sessions.FlagUnit | src/Processor.cpp:45-46 | Flagging and writing the record twice leaves exactly that unit flagged in the file |
| Sessions.Processor.Process | src/Processor.cpp:83-88 | Afterwards the file of every unit that was not flagged, the last one of its name, is what its extents give in the mode of the job, every other file is as it was, and all units are flagged, in memory and in the file |
| Sessions.SavedAllRescues | src/Processor.cpp:83-88 | What the units one after the other lead to, said of each file |
| Sessions.CutsRescue | src/Processor.cpp:83-88 | A run cut off any number of times leaves the same, said of each file |
| Sessions.ResumedRun | src/Processor.cpp:83-88 | Cut off anywhere, even within a file, and run again: the same restored files and the same list as without the cut |
| Sessions.ManyCuts | src/Processor.cpp:83-88 | The same for any number of interruptions |

## Left out

- Volumes.Volume.Truncate: asks for a size of at most 2^32 - 1 clusters; beyond that the 32-bit count is wrong, exactly as `Layout.Bytes2ClustersExact` says, and no volume with such a file is consistent (`Views.OversizeBreaks`). What a file asked for such a size looks like afterwards is not stated.
- Volumes.Volume.GenericPwrite: the same limit, on the size the write reaches.
- Directories.FindSlot: asks for a vacant run or for the directory not to stand in the trap of `cluster.c:288`; otherwise the search springs it and the volume is not consistent afterwards (`Directories.SearchSprings`). What a directory looks like then is not stated.
- CachedDirectory.Directory.Create: the same, through `FindSlot`; the flush of the directory's own record is in `Updates.Create`, and that the name is not taken yet is what `Lookup.SplitPath` finds out.
- CachedDirectory.Directory.Delete: the flush of the directory's own record is in `Updates.Delete`.
- CachedDirectory.Directory.Rename: the same as for `Create`, through `FindSlot`; the removal of what is in the way is in `Replacing.Replace`, and the check that the target is not below the source in `Trees.NodeTree.Rename`.
- Updates.Create: the same, through `FindSlot`.
- Updates.Rename: the same, through `FindSlot`.
- Calls.CallAll: asks for scripts that never grow a file when exactly one cluster is free; the exact condition is that of `Runs.WholeRun`, which depends on where the clusters are.
- MakingDirectory.MakeDirectory: the same, through `FindSlot`; the node of the new directory is there from the start, as an empty file, and finding it by its path is `Lookup`.
- Replacing.Replace: that nobody else refers to what is in the way; the source ends the program otherwise (`node.c:73-76`).
- Directories.Readdir: passes over the entries for the bitmap, the upper case table and the label, so the errors of reading those (`node.c:424-529`) are not answered.
- Directories.CacheDirectory: the same.
- Calendar.Unix2Exfat: takes times before the end of 65536 years; beyond them the year, which the source keeps in 16 bits, wraps round once more.
- Lookup.FileSystem.CacheDirectory: children of a directory not read yet are taken from a value standing for the disk, and a sibling list is a sequence here; its pointers are those of `Trees`, its reading is `Directories.CacheDirectory`.
- Loading the bitmap, the upper case table and the label when the root is read, and memory lost on malformed sets.
- Device read and write errors inside libexfat and failing allocations of memory: both are total here; only running out of clusters can fail. Read errors on the partition decide what recovery does and are modelled in `Restore`.
- The device as a whole: FAT, heap and partition are values, tied together by `Device.Holds`; the superblock gives their sizes.
- `LinkNext`, `ExtendChain`, `FreeChain`, `ChangeClusters`, `GetBytes`, `PutBytes`, `CountEntry`, `TakeEntry`, `FlushFirst`, `BeginDirectory`, `Unmake`, `Remove`, `ClearWay`, `PutInPlace`, `Bypass`, `Forget`, `Move`, `Adopt`, `ReadNodes`, `Search`, `Follow` and `Descend` are parts of one function each in the source.
- Modification and access times, apart from their codec; timestamps of new entries are parameters, as is the name hash, which `Lookup.CalcNameHash` computes.
- The check that a file with references is not truncated, and the freeing of nodes.
- Byte order and padding: numbers are little endian, padding of an extent is zero, a bitmap word has 64 bits, and or-ing with a mask of ones is rounding up.
- Malformed entry sets beyond being told apart: the layout of a directory assumes one info entry followed by name entries.
- `RESTORE_UNKNOWN`, and the branch of `getOffsets` for a mark that is never set.
- Output files are kept by name; making the directories they go to and opening them is not modelled, nor is the loop counter of `getOffsets` narrower than the cluster count.
- Reports, logging, the wizard, argument parsing, drives and mounting; the function in `src/Drive.cpp` that nothing calls; `exfat_find_used_sectors`, which nothing calls.
