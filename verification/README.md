# A model of exfat-embedded

exfat-embedded reads, writes and formats exFAT volumes on a device that offers
nothing but sector reads and sector writes.  This project models its allocator,
its file handles, its directories, its formatter and its mount in Dafny, and
proves what they mean.

**The state.**  `Volume.FileSystem` is the mounted volume.  Its fields are those
of the program: the device's sectors, one scratch sector and the lazily filled
free count.  Beside them stand four ghost views of the same sectors: the FAT as
a sequence of words, the cluster heap as a sequence of byte strings, the set of
clusters whose bitmap bit is set, and the owners (`nodes`), that is, for the
root, the bitmap, the up-case table and every file and directory the clusters it
has and the lengths recorded for it.  `Valid` ties the views to the sectors;
`Meaning.Inv` adds that owners share no cluster, that every cluster they have is
marked as used, that FAT links run along their extents, and that the slots of
every directory are exactly the records of its children.  Handles
(`Files.File`) and the entry-set parser (`EntrySets.EntrySet`) are objects whose
methods update them in place, and the loops of the program are loops here.

**The meaning.**  `Meaning.Contents` maps every file to its bytes, and
`Paths.Resolve` maps every path to the owner it leads to.  Main theorems are
stated over these two: what each operation does to them, that nothing else
changes, and that both are there again after the next mount.  `Catalog.TreeOf`
puts the two together, as a map from paths to directories and files with their
bytes, and `Histories.Run` serves an arbitrary client on it.  The client chooses
every request (`create`, `create_dir_all`, `remove`, `open`, and reads, writes,
appends and truncations on the files it has opened) from the answers so far, and
need only not use a handle it has itself invalidated (`Careful`).  Every answer
is then one the map allows at that time, and the volume is what the answered
calls make of the map.

What the map allows is narrow.  Every refusal has its cause on the map: `Corrupt`
needs a name in the path that cannot be folded, and `NoSpace` needs a volume that
had at most one free cluster before a file was made, or fewer free ones than an
append needs for its input.  No call may take more clusters than its bound
(`Growth.Took`, `Sessions.Spent`).  So calls that meet no obstacle cannot be
refused (`Clients.MustMake`, `Clients.MustOpen`, `Clients.MustAppend`), and put
together, a client that makes a file on a fresh volume and appends to it leaves
exactly those bytes at the path unless the device fails (`Clients.StoreOnFresh`).

**Failures.**  Every sector read or write may fail at any time (`faulty` is an
arbitrary function of the number of operations so far), and a failed write
changes nothing.  An operation answers `Device` exactly if one of its own reads or
writes has failed (`Errors.Honest`, `Errors.FailuresBetween`): no failure is
swallowed, and none is invented.  `NoSpace` is answered only when every cluster is
in use (`Full`), or when an append would need a length beyond 64 bits; every other
error is tied to its cause.  Contracts say what holds after a failure where the
program promises something.

**How the modules follow the program.**

| part of the program | modules |
|---|---|
| geometry, boot sector | `Geometry`, `Layout` |
| addresses, FAT, bitmap, allocator | `Views`, `RawViews`, `Volume` |
| entry sets | `EntrySets`, `EntryCodec`, `SlotIo`, `Listings`, `Standing` |
| file handles | `Extents`, `Files`, `Growth`, `Commits`, `Appending`, `Truncation`, `Sessions` |
| the tree and its meaning | `Tree`, `Meaning` |
| names and paths | `Upcase`, `Names`, `Scanning`, `Directories`, `Paths`, `Resolution` |
| creating and removing | `Vacancies`, `Reserving`, `Creation`, `PathCreation`, `Gaps`, `Removal`, `Recycling` |
| whole histories | `Catalog`, `Histories`, `Clients` |
| format and mount | `Media`, `Formatting`, `Mounting`, `Fresh`, `Remounting`, `Durability`, `Filling` |

## Where the code falls short

Each point names the members that prove it.

- **Sizes no layout fits.**  `layout` gives up on one residue class of partition
  sizes, because no FAT length is consistent there (`Layout.ConsistentExactly`);
  539 sectors is such a size (`Layout.SkippedSizeExists`).  `format_exfat` then
  answers `Corrupt` for a device that is large enough
  (`Formatting.FormatExfat`).
- **Clusters lost by removal.**  Removing an entry gives back all its clusters
  exactly if it is FAT-linked or has at most one cluster
  (`Removal.ReleasesAllExactly`).  Of the contiguous run [5, 6] only cluster 5
  comes back (`Removal.TwoClustersLeak`); the rest stays marked and belongs to
  nobody (`Removal.Orphaned`).
- **A full root cannot be mounted.**  The mount looks for an unused slot (first
  byte 0) in the root and takes the end of the chain for corruption.  A volume
  mounts again exactly if its root has such a slot (`Remounting.MountsAgain`).
  On a volume just formatted, with clusters of one sector, two `create` calls
  for names of 61 to 75 units succeed unless the device fails, and the next mount
  refuses the volume (`Filling.FillRoot`, `Remounting.TwoNamesFillTheRoot`).
- **A gap left by a refused creation.**  Growing a directory closes off the unused
  slots of its last sector only.  The new entry set fills what is left, but when
  the volume has no cluster for the new directory itself, or the name cannot be
  hashed, the directory has grown and the set is not written.  Unused slots then
  lie before others, and readers stop at the first, exactly if the directory had
  no run of free slots for the set, an unused slot before its last sector, and a
  cluster to grow by (`Reserving.Gapless`, stated of the calls themselves by
  `Creation.CreateIn`, `Creation.CreateDirectoryIn`, `PathCreation.Create` and
  `PathCreation.CreateDirAll`); `Gaps.GapCase` is an instance.  Nothing is lost at
  once, but the search for room does not stop at an unused slot, and the gap is
  too narrow for any set.  The next creation in that directory succeeds, though
  the volume is full, unless the device fails, its name cannot be hashed, or its
  set is longer than a cluster; and no lookup finds what it created, exactly if
  there was no run of free slots for it before the last sector
  (`Vacancies.GapStays`, `Gaps.CreateBehindGap`).
- **Unit 0xffff.**  On a formatted volume every unit folds as in ASCII, except
  0xffff, which the table reader takes for a run marker (`Fresh.FreshFolding`):
  a name with that unit is refused as corrupt.
- **A torn append.**  When the device fails inside the update of the directory
  entry, the record claims the new length under its old checksum
  (`Appending.Append`, `SlotIo.UpdateStream`).  The clusters of every
  file still hold its old bytes; only this one record is in disorder.

## Model

| member | source | states |
|---|---|---|
| Layout.ComputeLayout | src/format.rs:135-148 | for every partition size the formatter passes, eight rounds succeed exactly off one residue class, with the one consistent FAT length, its heap offset and cluster count; on failure no length is consistent |
| Layout.ConsistentExactly | src/format.rs:125-148 | a FAT length is consistent with the clusters it leaves room for exactly if the size avoids the skipped class and the length is the one candidate |
| Layout.SkippedSizeExists | src/format.rs:30-36 | 539 sectors pass the size check and have no layout |
| Geometry.AcceptedIsWellFormed | src/mount/mod.rs:476-565 | every boot sector the parser accepts gives a geometry whose FATs lie behind the boot regions, whose heap lies behind the FATs and inside the partition, and whose FAT has a slot for every cluster |
| Geometry.AcceptedExactly | src/mount/mod.rs:476-565 | a boot sector is accepted, with a given geometry, exactly if its bytes state that geometry (sector sizes of 512 to 4096 bytes, one or two FATs, either of them active), the geometry is well formed, signature, jump, revision, reserved and percentage bytes are right, and the volume's length lies between the heap's end and the partition's |
| Geometry.HeapAddress | src/core/geometry.rs:65-74 | every sector of every cluster lies inside the partition, above the active FAT; cluster 2 is the first of the heap, and each next cluster begins where the one before ends |
| Geometry.HeapAddressInjective | src/core/geometry.rs:65-74 | two different (cluster, sector) pairs never have the same address |
| Geometry.FatAddress | src/core/geometry.rs:76-84 | the FAT slot of every cluster lies inside one sector of the active FAT, four-byte aligned |
| Geometry.FatSlotsDisjoint | src/core/geometry.rs:76-84 | the FAT slots of two clusters in one sector do not overlap |
| Views.PutFatTied | src/fs/allocation.rs:91-111 | writing one FAT slot changes that word of the FAT, no other word and no cluster |
| Views.PutHeapTied | src/fs/operations.rs:152-192 | writing one heap sector changes that sector of its cluster, no other sector and no FAT word |
| Views.PutUsed | src/fs/allocation.rs:169-213 | flipping the bit that `bitmap_location` names marks or clears that cluster and no other |
| Views.WalkFollowsLinks | src/fs/allocation.rs:112-129 | a walk along the FAT reaches the clusters of a linked extent in order |
| Volume.FileSystem.SetFat | src/fs/allocation.rs:91-111 | one FAT word changes; on failure nothing does |
| Volume.FileSystem.ClusterAt | src/fs/allocation.rs:112-129 | the cluster returned is the one the walk reaches; `Corrupt` exactly for an index beyond the cluster count or a walk that leaves the heap |
| Volume.FileSystem.SetBitmap | src/fs/allocation.rs:169-213 | exactly one cluster is marked or cleared, the stored free count stays equal to the number of clear bits, and its two consistency checks never fire |
| Volume.FileSystem.RefreshFreeClusters | src/fs/allocation.rs:38-89 | the rescan stores the number of clear bits among the volume's clusters, over any number of bitmap sectors and clusters and a partial last byte, and its consistency checks never fire |
| Volume.FileSystem.FreeSpaceBytes | src/fs/allocation.rs:18-27 | the answer is the number of clusters not in use, in bytes, whether stored or counted |
| Volume.FileSystem.ClaimFreeCluster | src/fs/allocation.rs:250-271 | a used cluster is left alone; a free one is zeroed, marked and ended; a failure leaves the FAT alone and marks at most that cluster |
| Volume.FileSystem.AllocateClusterPreferred | src/fs/allocation.rs:225-248 | the cluster is the first free one in cyclic order from the clamped preferred one, zeroed, marked, with an end-of-chain word; no other cluster's bytes and no other FAT word changes; `NoSpace` exactly if no cluster is free, with the media untouched |
| EntrySets.EntrySet.Push | src/directory/entry.rs:179-299 | the parser object does, slot by slot, what the transition function `PushStep` says; `SetOutcome` says in bytes what that comes to |
| EntrySets.SetOutcome | src/directory/entry.rs:179-309 | a primary slot and as many slots as it announces: which bytes are errors, which make the parser give the set up, silently and exactly to its end, and that all others are a well-formed set and reported |
| EntrySets.ForeignThenSet | src/directory/entry.rs:288-297 | a set with a foreign, misplaced or surplus secondary slot does not hide the well-formed set behind it |
| EntrySets.FeedBetween | src/directory/entry.rs:179-222 | between sets, slots that are no primaries are passed over |
| EntrySets.DamagedNotReported | src/directory/entry.rs:179-309 | a well-formed set in which one byte has changed, whichever and however, is not reported, unless it was the number of its slots |
| EntrySets.ReportIsSound | src/directory/entry.rs:179-309 | a record is reported only at the end of a complete run of slots with the stored checksum, and is what those slots decode to |
| EntrySets.FileSetParses | src/directory/entry.rs:179-309 | from any clean state every well-formed set is reported once, as its decoded record, and leaves the parser clean |
| EntrySets.EntryCountBounded | src/directory/entry.rs:179-299 | no record ever has more than nineteen slots, whatever slots are fed |
| EntrySets.FeedConcat | src/directory/entry.rs:179-299 | parsing does not depend on where a slot stream is cut into sectors |
| EntrySets.IgnoredSetConsumed | src/directory/entry.rs:179-299 | a set that has been given up is consumed in exactly its declared length: nothing is reported, and parsing fails exactly if a primary slot comes inside it |
| EntryCodec.WriteThenParse | src/fs/operations.rs:1065-1144 | parsing a freshly written set of 1 to 255 name units reports what was written, at its last slot and not before |
| EntryCodec.HashStored | src/fs/operations.rs:1092-1102 | bytes 4 and 5 of a written set's stream slot are the hash it was written with, and a stream update keeps them |
| EntryCodec.UpdateThenParse | src/fs/operations.rs:1391-1464 | after a stream update the set parses to the old record with only the stream fields changed |
| EntryCodec.PatchedDecodes | src/fs/operations.rs:1391-1464 | the record a patched set holds differs from the old one in the stream fields only |
| EntryCodec.TornParses | src/directory/entry.rs:179-309 | a set with new stream fields under its old checksum is reported, with those fields, exactly if the old checksum happens to match, and is refused as corrupt otherwise |
| SlotIo.UpdateStream | src/fs/operations.rs:1391-1464 | the stream fields of one set change and its checksum is renewed; when a write fails the set is as before, or has the new fields under the old checksum |
| Files.FileClusterAt | src/fs/operations.rs:22-70 | with the cached cursor as without, the answer is the cluster a walk from the first cluster reaches, or its absence |
| Files.Read | src/fs/operations.rs:113-147 | the bytes from the position on, as many as are asked for and there are |
| Files.Write | src/fs/operations.rs:152-192 | the bytes from the position on are overwritten and no other; on failure a beginning of the input has been written, as far as the position moved |
| Growth.Materialise | src/fs/operations.rs:611-632 | a contiguous extent gets the FAT links that make its chain walk the same clusters, and no FAT word outside the file changes |
| Growth.GrowOne | src/fs/operations.rs:581-642 | one cluster nobody had is added behind the extent, by adjacency or by links: the one behind the last whenever that is free, and a contiguous extent stays contiguous exactly then; every owner keeps its clusters |
| Commits.Commit | src/fs/operations.rs:650-651 | recording the handle's state changes the meaning of its own file only; a failure leaves the record intact or torn in the one stated way |
| Appending.Append | src/fs/operations.rs:552-652 | the file has grown by exactly the input and nothing else has changed; it stays contiguous exactly while every cluster taken lies behind the last one, which it does whenever that is free; no more clusters are taken than the input needs; on failure the handle is as before and every file has its old bytes, clusters in use have only grown, `NoSpace` means that all those that were free would not hold the input, or that the length would pass 64 bits, and the volume is intact unless the directory entry was torn: it then has the fields of the grown file under the old checksum |
| Truncation.Truncate | src/fs/operations.rs:657-724 | the file keeps its first bytes, exactly the clusters beyond them are free again, nothing else has changed; when any are, the last cluster kept ends the chain in the FAT, the words of those given back are zero, and every other word is as before; a length beyond the end is refused and changes nothing |
| Sessions.Interleaving | src/fs/operations.rs:113-192 | however calls on several files are interleaved, each file and handle end up, and each call answers, as if its calls had been made alone |
| Sessions.Bystander | src/fs/operations.rs:552-724 | a file no call is made on keeps its bytes through any script |
| Sessions.Perform | src/fs/operations.rs:113-192 | one call among open handles is the specification's step; a failed read or write has done a shorter one; a failed append has done nothing; chains that ended at their last cluster still do, and the chain of a file just shortened does |
| Sessions.Run | src/fs/operations.rs:552-724 | any script of reads, writes, appends and truncations on any number of handles gives the files, positions and replies of the specification; chains that ended at their last cluster still do; where a device failure or a full volume stops it, what holds then |
| Upcase.UpcaseUnit | src/fs/operations.rs:871-918 | folding a unit on the device is indexing the fully expanded table, read through its FAT chain, or the fixed ASCII rule |
| Upcase.SameNameIsFolding | src/fs/operations.rs:854-869 | names match exactly if their folded forms are equal, so matching is an equivalence |
| Upcase.MatchingHash | src/fs/operations.rs:1146-1158 | names that match have the same stored hash |
| Upcase.HashIsSum | src/fs/operations.rs:1146-1158 | the hash of a name that folds is the 16-bit rolling checksum of the folded units' bytes, low byte first |
| Upcase.FormattedFolding | src/format.rs:329-363 | with the table the formatter writes, every unit folds as in ASCII except 0xffff, which is an error |
| Fresh.FreshFolding | src/format.rs:329-363 | the same of every volume just formatted and mounted |
| Names.EncodedFits | src/directory/codec.rs:5-27 | accepted names have 1 to 255 units, and different names have different encodings |
| Names.EncodedExactly | src/directory/codec.rs:5-27 | a name is encoded exactly if it is not empty, "." or "..", holds no NUL, '/' or '\\', and has at most 255 UTF-16 units; it is `InvalidPath` if one of the former fails, however long, and `NameTooLong` otherwise |
| Names.EncodeName | src/directory/codec.rs:5-27 | the encoding loop, with its limit of 255 units, computes that encoding or its error; which names it accepts is said in literals |
| Scanning.ReadDirectory | src/fs/operations.rs:968-1042 | on any FAT whatsoever, cyclic ones included, the visit ends within the cluster count, having shown exactly the records that parsing the visited clusters reports |
| Scanning.FindChild | src/fs/operations.rs:768-852 | the same for the search by name, which stops at the first record whose name matches |
| Directories.ListDirectory | src/fs/operations.rs:968-1042 | the visitor sees, in order, the records before the directory's first unused slot, up to the one it stops at; on an intact volume these are all records |
| Directories.LookupChild | src/fs/operations.rs:768-852 | the search finds exactly the first record before the first unused slot whose folded name is the wanted one, and leaves the parser clean unless the device failed |
| Paths.SlotIsFirstMatch | src/fs/operations.rs:768-852 | the first listed match is the record of the first slot that starts a set of a matching name |
| Paths.Lookup | src/fs/operations.rs:740-766 | a path leads exactly where the directories lead, and fails with exactly their error |
| Paths.Open | src/fs/operations.rs:86-109 | the handle is on exactly the file the path leads to; a directory is refused |
| Resolution.ResolveStays | src/fs/operations.rs:740-766 | while every directory keeps its sets and their names, every path leads, or fails, as it did |
| Resolution.ResolveKept | src/fs/operations.rs:740-766 | when a set of a new name arrives, every path that led somewhere leads there still |
| Resolution.ResolveWithout | src/fs/operations.rs:740-766 | when a set goes, every path to anywhere else leads there still, and the path to it leads nowhere if names were apart |
| Resolution.DistinctKept | src/fs/operations.rs:239-251 | names that were apart up to case in every directory stay apart when a set of a new name arrives |
| Vacancies.FindGap | src/fs/operations.rs:1234-1256 | growing an intact directory as far as a set needs leaves an unused slot before others exactly if it grows at all and one lay before its last sector |
| Vacancies.FindFits | src/fs/operations.rs:1160-1295 | the place found holds the set and no part of another; in an intact directory filling it leaves unused slots last; two growths always suffice |
| Vacancies.GapStays | src/fs/operations.rs:1197-1211 | after a growth that left a gap, the next set goes behind the first unused slot exactly if there was no run of free slots for it before the closed sector |
| Vacancies.VacantTaken | src/fs/operations.rs:1197-1211 | when so many slots in a row have a first byte below 0x80, the place found is the first such run, and the directory does not grow |
| Reserving.FindFreeEntries | src/fs/operations.rs:1160-1295 | how often the directory grows and where the set goes is what a scan of its slots says: the first run that is long enough, else the run at the end continued in a new cluster, else the same once more; every set of the directory stays; only a volume without a free cluster lacks room; with enough vacant slots in a row (first bytes below 0x80) it succeeds without taking a cluster, at the first such place, unless the device fails |
| Reserving.GapExactly | src/fs/operations.rs:1160-1295 | after the search for room, successful or not, the volume is intact exactly if the directory had the room, no unused slot before its last sector, or no cluster to grow by |
| Creation.StillUnambiguous | src/fs/operations.rs:239-251 | adding a record whose name matched nothing keeps siblings' names apart up to case |
| Creation.WriteEntrySet | src/fs/operations.rs:1065-1144 | exactly the given slots become the new set, sealed; a name that cannot be hashed writes nothing |
| Creation.CreateIn | src/fs/operations.rs:253-281 | one more record in the directory's listing, one more file, empty, and nothing else, across sectors, clusters and growth of the directory, which may have unused slots before others; a refusal changes no file, and leaves an intact volume intact exactly under the stated condition |
| Creation.CreateDirectoryIn | src/fs/operations.rs:317-345 | one more record, no file's bytes changed, and the new directory lists nothing; a refusal changes no file, and leaves an intact volume intact exactly if the old directory had a run of free slots for the set, no unused slot before its last sector, or no cluster to grow by |
| PathCreation.Create | src/fs/operations.rs:220-281 | the path leads to the file, which is empty; a new file is one new record that the next lookup finds; all other files keep their bytes, all paths lead where they led, no other path leads anywhere new, names stay apart; a refusal has one of the listed causes, every file and path stays, and the volume is intact exactly unless a missing name's set left a gap; a full volume is left intact; with enough vacant slots in the path's directory no cluster is taken and `NoSpace` is no answer; the parser is clean again unless the device failed |
| PathCreation.CreateDirAll | src/fs/operations.rs:296-349 | the path and all its beginnings lead to directories; every component was there or is one new record in the directory before; no file's bytes change, all paths lead where they led, only the path's beginnings lead anywhere new, names stay apart; a refusal comes at the first component that is a file or whose name cannot be encoded, compared or hashed, with the components before it made, and the volume is intact exactly unless that component's set left a gap; the parser is clean again unless the device failed |
| Gaps.GapCase | src/fs/operations.rs:317-345 | in a directory of two sectors with fifteen slots in use, on a volume with one free cluster, creating a directory whose name needs eighteen slots answers `NoSpace` and leaves unused slots before others |
| Gaps.CreateBehindGap | src/fs/operations.rs:1197-1211 | after a refusal that left a gap, a file created in the same directory can fail only for the device, a name that cannot be hashed, or a set longer than a cluster, and is found by a lookup exactly if there was a run of free slots for it before the last sector |
| PathCreation.HandleSurvives | src/fs/operations.rs:220-281 | handles opened before a creation are at rest after it |
| Removal.RetireEntrySet | src/fs/operations.rs:1297-1325 | exactly the slots of the set lose their in-use bit |
| Removal.ReleaseEntryClusters | src/fs/operations.rs:1362-1389 | the clusters given back are all of a linked extent and the first of a contiguous one; nobody else's |
| Removal.ReleasesAllExactly | src/fs/operations.rs:1362-1389 | a removal gives everything back exactly if the entry is FAT-linked or has at most one cluster |
| Removal.TwoClustersLeak | src/fs/operations.rs:1374-1386 | of the contiguous run [5, 6] only cluster 5 is given back |
| Removal.Orphaned | src/fs/operations.rs:1362-1389 | a cluster of a removed entry that is not given back stays marked and belongs to no owner |
| Removal.Remove | src/fs/operations.rs:367-430 | the record leaves the listing and the bytes leave the meaning; all other files keep theirs, all other paths lead where they led, the removed path leads nowhere and no path anywhere new if names were apart; the slots of its set are vacant now; a directory that lists anything is refused; other refusals change nothing; the parser is clean again unless the device failed |
| Removal.HandleOutlives | src/fs/operations.rs:367-430 | handles on other files are at rest after a removal |
| Recycling.Recycle | src/fs/operations.rs:220-430 | removing an entry and creating a file in its directory, with a name that needs no more slots: no cluster is taken that the removal did not give back, and `NoSpace` is no answer, even on a full volume; what was removed can be created again under the same name, if names were apart and proper, unless the device fails |
| Catalog.ResolveAlike | src/fs/operations.rs:740-869 | two paths whose names match one by one lead to the same, or fail alike, on every volume |
| Catalog.SameTarget | src/fs/operations.rs:740-869 | two paths that lead to the same match name by name |
| Catalog.PutTree | src/fs/operations.rs:220-281 | creating, emptying or writing the file at a path changes the map from paths to bytes at that path, however spelled, and nowhere else |
| Catalog.WithoutTree | src/fs/operations.rs:367-430 | removing what a path leads to takes that path, however spelled, from the map, and nothing else |
| Catalog.OccupiedIsBranch | src/fs/operations.rs:410-427 | when all stored names are proper, a directory that lists anything has a path below it on the map, so a refused removal of a directory shows there |
| Catalog.HaltedTree | src/fs/operations.rs:296-349 | a walk that is refused has added exactly the directories before the name that barred the way: on the map that name is a file or, for want of room, missing, or it is no name, or it cannot be folded |
| Histories.Run | src/fs/operations.rs:86-724 | a client that chooses each of its create, create_dir_all, remove, open, read, write, append and truncate calls from the answers so far, and calls no handle it has invalidated: every answer is one that the map from paths to bytes and the clusters in use allow at that time, each refusal with its cause there, and volume and handles are at every time what the answered calls make of the map; it ends when the client or its steps end, at a refused creation that may have left a gap, and as broken exactly if one of its sector reads or writes has failed |
| Clients.PausedGoesOn | src/fs/operations.rs:1160-1295 | after a creation whose refusal may have left a gap, the history can go on from there with the map it has made exactly if the directory, as the refused step found it, had the room, no unused slot before its last sector, or no cluster to grow by |
| Clients.Untouched | src/fs/operations.rs:86-430 | a path that is never made, removed or opened, under any spelling, leads to the same bytes after any sequence of calls |
| Clients.ServingNested | src/fs/operations.rs:740-766 | on the map of a volume being served everything lies in directories that are on the map |
| Clients.MustMake | src/fs/operations.rs:220-281 | on a volume whose stored names are all proper, a file is made, or emptied, at every path whose names can be encoded and hashed, whose directory is there and which is no directory, when two clusters are free |
| Clients.MustOpen | src/fs/operations.rs:86-109 | a file on the map is opened if the names of its path can be hashed |
| Clients.MustAppend | src/fs/operations.rs:552-652 | an append is done, and answered with its length, when the free clusters hold the input and the length stays within 64 bits |
| Clients.AppenderIsCareful | src/fs/operations.rs:86-724 | the client that makes a file and, once that is done, appends through its handle calls no dead handle, whatever it is answered and whatever the map was |
| Clients.AppenderStores | src/fs/operations.rs:220-652 | both its calls are done, and the path has exactly the input, on every map where the path can be made and enough clusters are free |
| Clients.StoreOnFresh | src/fs/operations.rs:220-652 | served on a volume just formatted, that client leaves exactly the input in the root under any name of 1 to 255 units that is not "." or ".." and holds no NUL, '/', '\\' or 0xffff, exactly unless one of its sector reads or writes fails |
| Clients.FreshStarts | src/format.rs:19-123 | a volume just formatted and mounted is the empty map, with all names apart and proper |
| Formatting.WriteFat | src/format.rs:235-292 | the FAT written does not depend on the batch size |
| Formatting.WriteBitmap | src/format.rs:297-328 | the bitmap written marks the reserved clusters, whatever the batch size |
| Formatting.WriteUpcase | src/format.rs:329-363 | the table and its checksum do not depend on the batch size |
| Formatting.FormatExfat | src/format.rs:19-123 | success leaves a formatted device; each refusal happens exactly for its sizes; the only other answer is `Device`, exactly if a sector write has failed |
| Mounting.FinishedExactly | src/mount/mod.rs:189-272 | the root scan finishes exactly if the slots are clean up to an unused one, and has then found the bitmap of the active FAT and the first table |
| Mounting.DiscoverRoot | src/mount/mod.rs:189-272 | the descriptors found are those of the root's chain on the raw device; a failure means no chain has them |
| Mounting.ValidateUpcaseTable | src/mount/mod.rs:128-187 | success means a chain on the device holds a table of the recorded length and checksum; failure means none does |
| Mounting.Mount | src/mount/mod.rs:59-125 | a device is mounted as a volume exactly if its bytes describe that volume: the partition, a boot region with a right checksum, main or backup, that states the geometry, and a root whose chain tells of the bitmap and the table, which is valid exactly if its bytes have the recorded checksum; every answer is a fixed function of the contents, or `Device` exactly if a read has failed |
| Mounting.MountsExactly | src/mount/mod.rs:59-125 | that function succeeds with a volume exactly where the device holds it |
| Fresh.ParsesBack | src/mount/mod.rs:476-565 | the parser reads from the boot sector the formatter wrote exactly the geometry it planned |
| Fresh.MountsBack | src/mount/mod.rs:59-125 | a formatted device mounts as the planned volume, with a valid table, for every scratch size |
| Fresh.BackupServes | src/mount/mod.rs:85-92 | whatever happens to the main boot region, if its checksum is rejected the backup mounts the same volume |
| Fresh.FormatThenMount | src/format.rs:19-123 | formatting and mounting succeed exactly for the sizes that have a layout, or answer `Device` because an operation failed, and give an empty volume that satisfies the invariant and can be mounted again, with clusters of 512 bytes up to 64 MiB, of 8192 up to 512 MiB, and of 32768 beyond |
| Remounting.MountsAgain | src/mount/mod.rs:59-125 | mounting the device of a used volume finds the same geometry, bitmap and table exactly if the root has an unused slot, and is refused otherwise |
| Remounting.TwoNamesFillTheRoot | src/mount/mod.rs:219-224 | two sets of seven slots leave a fresh one-sector root without an unused slot |
| Filling.FillRoot | src/mount/mod.rs:219-224 | on a volume just formatted with clusters of one sector, creating two files whose names have 61 to 75 units succeeds exactly unless one of their sector reads or writes fails, and the next mount is refused as a corrupt root unless its device fails |
| Remounting.Remount | src/fs/operations/mount.rs:7-31 | the newly mounted file system has the same owners, FAT, clusters and files, and can itself be mounted again |
| Durability.RunThenRemount | src/fs/operations/mount.rs:7-31 | after any script and a new mount the files are those of the specification and every path leads where it led |
| Durability.StoreThenRemount | src/fs/operations.rs:220-281 | create, any calls, mount again: the path leads to a file with exactly the bytes of the calls, every other file has its own, every other path leads where it led; the only ways to fail are the stated refusals, a full volume, a full root and the device |
| Durability.RemovedMountable | src/fs/operations.rs:367-430 | a removal leaves a volume that mounts again under the same condition |

## Left out

- `rename`: not modelled.
- GUID partition tables and CRC-32: what a GUID table names is a parameter of the mount.
- Volume labels and timestamps: labels are passed over by the root scan; the three timestamps are written as the program writes them and mean nothing here.
- `async`, scratch lifetimes and cancellation: the device is a sequence of sector reads and writes, and one call runs to its end.
- `device_mut`, aliased handles on one file, and foreign changes to the media: each file has one live handle, and only the file system writes the device.
- The error values' fields: error kinds are kept, their payloads are not; a broken file chain is `Corrupt`.
- Splitting paths at '/': a path is a sequence of names, each a sequence of Unicode scalars.
- Files.Read: what the buffer holds after a device failure is not stated; only how far the position may have moved.
- Truncation.Truncate: after a device failure only the device views are promised; the program has no rollback there.
- Removal.Remove: after a device failure only the device views are promised, for the same reason.
- Creation.CreateDirectoryIn: after a device failure only the device views are promised.
- Creation.CreateIn: likewise.
- Histories.Run: after a device failure nothing is promised about the map any more.  A creation refused where it may have left a gap ends the run; `Clients.PausedGoesOn` says when another can follow.  On a volume where some stored name cannot be folded, or is not the encoding of any path's name, a refusal for an uncomparable name is allowed for every path, and a refused removal does not show what is in the directory.  Calls on a handle whose file has since been created or opened again, or removed, are not made: the program's stale handles would write into clusters that are no longer theirs.
- Volume.FileSystem.ClusterAt: a first cluster outside the heap is not modelled; no handle of a valid volume has one.
- Scanning.ReadDirectory: directories whose data length is not a multiple of the cluster size are not modelled; the program makes none.
- Appending.Append: a torn directory entry is described exactly but not repaired; the invariant holds again only when it is not torn.
- Reserving.FindFreeEntries: a device failure during growth promises only the device views.  Slots closed off with 0x80 during growth are never used again, as in the program.
- Scanning.FindChild: likewise for such lengths; and on a contiguous directory of several clusters the search stops after the first cluster, as in the program; the intact volumes of the other modules have FAT-linked directories only.
- Files whose data length is not a multiple of the cluster size, and first clusters of empty files other than 0: the invariant excludes them; every operation modelled here keeps that.
- Mounting.Mount: what a GUID partition table names is a parameter instead of being read.
- The parser a caller passes in: it must be between entry sets; after a device failure in the middle of a set it may not be.
- Formatting.FormatExfat: scratch buffers that hold a sector but are not a multiple of 512 bytes are not modelled.
- Fresh.FormatThenMount: formatting scratch sizes that are not a multiple of 512 are left out here too; the formatter writes only the first sector of the root cluster; that the rest was blank is a condition for the empty volume.
- Volumes of more than 0xfffffff5 clusters: the invariant asks that cluster numbers stay below the reserved FAT values.
