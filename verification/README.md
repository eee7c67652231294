# A verified model of a single-file key-value volume

The library keeps a whole key-value store in one file, the physical volume, and mounts catalogs of several volumes into
one virtual storage. This project models that library in Dafny, from the bytes of the device up to the overlay of
mounted volumes, and proves what its layers promise one another. It covers 64-bit offsets, the default cluster size of
3840 bytes and 8-byte node ids.

`dafny verify dfyconfig.toml` checks everything.

## How the model is laid out

| files | what they are about |
|---|---|
| `Bytes`, `Errors`, `Versions`, `Serialization` | byte strings, little-endian words, result values, cursors |
| `Device`, `DataReaderWriter` | the byte-vector device; typed and chunked reads and writes on it |
| `Layout`, `VolumeHeader`, `Values`, `Time` | packed headers, the start of a volume, user values, 48-bit expiry dates |
| `Freelist`, `EntriesAllocator` | the eleven size classes and the growth of the volume in clusters |
| `Blocks`, `Image`, `Shape`, `Segregation`, `Blanks`, `Allocation`, `Conservation`, `FreedChunks` | the block structure as a value: tiling, links, lists, what each step keeps or breaks |
| `Chains`, `ChunkSupply`, `LongDeletion`, `EntrySteps`, `EntriesManager` | entries and chunk chains on the device |
| `ShortValues`, `NewVolume`, `ShortOverrun`, `SharedBlock` | when short values keep within their block, and two runs of a new volume that go wrong |
| `AhoCorasick`, `IndexFormat`, `BreadthFirstListing`, `IndexReading`, `AhoCorasickSerialization`, `IndexProperties`, `InvertedIndex` | the index: a trie of heap nodes, its serialized form, writing and rebuilding it |
| `VolumeMap`, `StoredIndex`, `PVManager`, `VolumeRuns` | a volume as a map from keys to values with expiry dates, closing and loading it, whole runs |
| `Overlay`, `Storage` | mount routing and the overlay of volumes |

Classes of the library are classes here, with the same fields and the same loops; their methods are proved against
values. The state of a volume is the value `Blocks.State`: which blocks there are and how far they reach, which are live
entries, which are free and how those are linked, and the heads of the eleven classes. `Image.Holds` says when the bytes
of a device are an image of such a state, and `Blocks.Sound` is the invariant: the blocks tile the device from byte 124
to its end, every block is large enough for its header, every link and every head leads to a free block, and none is
referred to twice. `Shape.Shaped` is the stronger invariant of volumes that have only held fixed-size values.
`Segregation.Segregated` says that simple and complex free blocks keep to lists of their own, which is what storing a long
value relies on.

## What is proved

* **Persistence over whole runs.** A volume is created, used by any run of operations, closed and loaded: the loaded map
  is the one the run leads to on a plain map, without the puts for which the device had no room
  (`VolumeRuns.RunVolume`). It fails only without room, with an index longer than 400 MiB, or when the run has not
  altered the volume. The index is serialized, written as a chain of chunks through the real allocator, read back and
  rebuilt.
* **Closing again.** A loaded volume that is changed and closed deletes its old index first. This gives the map of the
  second run as well (`VolumeRuns.Session`) if the volume came back with segregated lists and the freed chunks of the old
  index go to the classes they are linked to; in general, if the deletion keeps the volume intact and its lists
  segregated (`PVManager.CanStoreAgain`). When it keeps the volume intact is decided by `FreedChunks.IntactExactly`. The
  lists are segregated again after the close, so that sessions can follow one another, if class 2 is empty and the first
  block takes the whole index without leaving a remainder for class 2 (`EntrySteps.KeepsApart`).
* **A volume is a map.** Every operation of `PVManager` changes the map of the volume as the plain operation would, on
  every reachable state; expired entries are hidden and purged by accesses, and a key is refused exactly if present. After
  any run, what a key holds depends only on the operations that name it (`VolumeRuns.Execute`).
* **Nothing is lost or shared.** As long as no growth has failed and no long value was stored, every byte behind the
  headers belongs to exactly one block, which is the entry of one key (or was stored under the empty key) or stands in
  exactly one free list (`PVManager.EveryByteAccounted`, for whole runs with `VolumeRuns.Execute`). Every operation leaves
  the bytes of all other entries alone.
* **Allocation fails exactly for want of room.** A request is served by the least class that admits it, or, from 3840
  bytes on, by the greatest above class 5; without such a class the volume grows, by a tenth more than the last time, in
  whole batches. It fails exactly if there is no such class and that growth does not fit the device
  (`EntriesManager.PVEntriesManager.GetFreeOffset`), and so does `PVManager.Put` under a new key. The retry after growing
  always succeeds, so the failure with `DeviceExpandError` is never reached. A key deleted from a full volume makes way
  for another one (`VolumeRuns.Replace`), and so does one that has expired, once an access has found it out
  (`VolumeRuns.Renew`). The writer of a long value, and with it the closing of a volume, fails only where the block that is
  to take the next bytes is not to be had (`EntriesManager.PVEntriesManager.Stuck`).
* **Long values.** A value can be written over any supply of disjoint free blocks and reads back as itself
  (`ChunkSupply.WriteOver`). In a volume of fixed-size values the real allocator stores a value of any length intact
  (`EntriesManager.PVEntriesManager.FixedStorable`); in general it does while the lists are segregated, for more than 24
  bytes always and for fewer exactly if they keep within the block in hand, and whenever the first block takes them all.
* **The index round trip.** Serializing writes each node once, level by level; rebuilding gives the trie back except for
  a leaf at the root; every strict prefix of a serialized form is rejected and leaves the index alone.
* **Routing and overlay.** A key leads to the group of a mounted path exactly if it starts with that path and agrees
  with no mounted path beyond it. Groups are visited by decreasing priority and, among equals, in mount order; the
  operations of the storage do what the order of visits says, on top of the verified volumes. A value goes to the first
  volume visited that neither has the key nor lacks the room, and an access removes the expired entries of the volumes it
  asks, up to the one that answers, and none behind it (`Overlay.GetThenReadDate`).
* **The format.** Every field of the volume header, of entries, free blocks and chunks, and of the records of a serialized
  index stands where the library puts it, byte by byte.

## What turned out not to hold

* Expiry dates are stored from bit 32 on but read back from bit 48 on. A date reads back as itself exactly if it is
  below 2^32, or is one particular negative number (`Time.ReadsBackExactly`); any other comes back with its upper bits
  moved up by 16 (`Time.ReadsBackShifted`).
* A leaf at the root does not survive serialization; the trie comes back exactly if there is none
  (`AhoCorasickSerializationHelper.Deserialize`). `InvertedIndexHelper` never puts one there.
* Storing a value under the empty key reports success, but no key leads to the entry: `PVManager.Put` keeps every live
  entry reachable exactly if it fails or the key is not empty.
* A key whose entry has expired still counts as present for `Put` until an access purges it.
* Writing a long value takes one block more than the value needs and never returns it (`Chains.Writing`, `spare`). An
  empty value gets a block but no header, and cannot be read (`EntriesManager.PVEntriesManager.WriteComplexType`).
* A value of at most 24 bytes is handed the simple block that class 2 starts with, if it does. The bytes where a complex
  header has its chunk size then tell how much of the value is put there; if that is not all, the rest goes to the next
  block. It leaves all other blocks alone, whatever its bytes, exactly if 32 bytes and this much of it do not exceed what
  the block owns (`ShortValues.ShortIntactExactly`); while the lists are segregated, it is then stored intact
  (`EntriesManager.PVEntriesManager.WriteComplexType`). In a volume of fixed-size values
  these bytes are zero and the first chunk is empty, so it always is. In a new volume, a value of 24 bytes stored after
  one of 3751 bytes runs over its block of 49 bytes into the header of the first (`ShortOverrun.ShortValueOverruns`).
* Deleting a long value frees it as a whole exactly if it has at most two chunks
  (`EntriesManager.PVEntriesManager.DeleteComplexEntry`).
* A freed chunk of n bytes becomes the head of the class of n + 32 bytes but is linked to the head of the class of n
  bytes. The volume stays intact, with no block referred to twice, exactly under the condition
  `FreedChunks.StaysApart` on the heads of the classes and the sizes of the one or two chunks
  (`FreedChunks.IntactExactly`); every free block stays in some list exactly under `FreedChunks.KeepsAll`
  (`FreedChunks.KeptExactly`). Both hold whatever the lists contain if no class limit lies within 32 bytes above a chunk
  size (`FreedChunks.SameClassesSuffice`, `FreedChunks.SameClassExactly`). In a new volume, after values of 493 and 2302
  bytes, deleting the first and asking for 300, 700 and 300 bytes hands out the block at 18892 twice
  (`SharedBlock.HandedOutTwice`).
* Setting an expiry date on a long value overwrites the mark of its first chunk; the value cannot be read any more
  (`EntriesManager.PVEntriesManager.SetLongExpiredDate`).
* A growth that is handed a free block links its clusters into one list exactly if that block is the last cluster of the
  volume (`EntriesAllocator.LinkedExactly`); the entry manager only ever grows without one.
* In the storage, the value and the expiry date of a key may come from different volumes. They do not exactly if no volume
  in front of the one that yields the value holds an expired entry, and that volume has a date or none behind it has
  (`Overlay.DateOfValueExactly`; a case where they do is `Overlay.DateOfAnotherValue`).
* A new volume that is closed without a change stores index offset 0, and no manager accepts it again
  (`StoredIndex.NoIndexIsRefused`).
* Priorities are compared as unsigned numbers. A group is visited by decreasing priorities exactly if all of them are
  negative or none is; otherwise the negative ones come first (`Overlay.GroupInOrderExactly`).
* The length check of the leaf table compares with the start of the table, so an error is reported exactly if the first
  record is cut off (`AhoCorasickSerializationHelper.DeserializeLeafDescriptors`); the truncation is caught by the node
  records, because these are longer than leaf records.

## Model

| member | source | states |
|---|---|---|
| Device.TestDevice.Read | include/storage/lib/devices/TestDevice.hpp:22-37 | a read succeeds exactly if the range lies on the device, and yields its bytes |
| Device.TestDevice.Write | include/storage/lib/devices/TestDevice.hpp:39-76 | a write at a position up to the end replaces or extends exactly that range; too large a write and one behind the end fail and change nothing |
| Device.ReadBack | include/storage/lib/devices/TestDevice.hpp:39-76 | a read of a range just written yields the bytes written |
| Bytes.SpliceElsewhere | include/storage/lib/devices/TestDevice.hpp:56-76 | a write leaves every range it does not touch as it was |
| Bytes.DecodeEncode | include/storage/lib/utils/serialization_utils.h:38-59 | a stored word is loaded again, provided it fits |
| Bytes.EncodeByte | include/storage/lib/utils/serialization_utils.h:38-59 | words are stored with the low byte first |
| Serialization.SavedLoads | include/storage/lib/utils/serialization_utils.h:38-59 | what has been saved at a cursor is what loading there reads; with too short a buffer the one goes to the end, the other stays, and nothing is copied |
| Layout.UnpackPackSimple | include/storage/lib/physical_volume/pv_layout_headers.h:98-125 | the packed header of a simple entry reads back as itself |
| Layout.NextOfLinked | include/storage/lib/physical_volume/pv_layout_headers.h:104-117 | a link stored over the union of a simple header reads back |
| Layout.EntryHeaderBytes | include/storage/lib/physical_volume/pv_layout_headers.h:98-125 | where type, state and value of an entry lie byte by byte, and where a date is put: its high part at 2, its low part at 4, the state 1 |
| Layout.LinkedHeaderBytes | include/storage/lib/physical_volume/pv_layout_headers.h:104-117 | a link takes bytes 4 to 12 of a simple header and leaves the others alone |
| Layout.ExpiryOfDated | include/storage/lib/physical_volume/pv_layout_headers.h:104-117 | a date set in a simple header reads back and leaves type and value alone |
| Layout.UnpackPackComplex | include/storage/lib/physical_volume/pv_layout_headers.h:127-138 | the packed header of a complex entry reads back as itself |
| Layout.ComplexHeaderBytes | include/storage/lib/physical_volume/pv_layout_headers.h:127-138 | where each field of a complex header lies |
| VolumeHeader.UnpackPackPV | include/storage/lib/physical_volume/pv_layout_headers.h:20-29 | the packed volume header, signed fields included, reads back as itself |
| VolumeHeader.StartBytesAre | include/storage/lib/physical_volume/pv_layout_headers.h:20-29 | where each field of the volume header and each head of a list lies on the device |
| VolumeHeader.StartWritten | include/storage/lib/physical_volume/PVEntriesManager.hpp:62-73 | the two writes of the start leave exactly header and list heads in front of the blocks |
| VolumeHeader.ClosedStart | include/storage/lib/physical_volume/PVEntriesManager.hpp:36-60 | a reader finds the header and the list heads of a closed volume |
| VolumeHeader.HoldsBehind | include/storage/lib/physical_volume/PVEntriesManager.hpp:69-70 | the blocks do not notice what is written in front of them |
| Values.ValueRoundTrip | include/storage/lib/physical_volume/PVEntriesManager.hpp:152-159 | a fixed-size value of any type comes back from the word it was copied into, whatever lies behind it in memory |
| Values.BitsAreTwosComplement | include/storage/lib/physical_volume/PVEntriesManager.hpp:152-159 | signed integers are stored modulo the range of their type |
| Time.LessIsNumeric | include/storage/lib/utils/Time.hpp:18-40 | comparing stored dates compares the dates, saturated at 48 bits, as numbers |
| Time.ReadsBackShifted | include/storage/lib/utils/Time.hpp:18-35 | every date reads back with its lower 32 bits in place and the bits above them moved up by 16 |
| Time.ReadsBackExactly | include/storage/lib/utils/Time.hpp:18-35 | a stored date reads back as itself if and only if it is below 2^32 or the one fixed point |
| Versions.VersionsAreNumbers | include/storage/lib/utils/Version.hpp:15-26 | versions are ordered by 256 times the major number and the minor one, and equal exactly if these are |
| Freelist.BinIdIsLeast | include/storage/lib/physical_volume/FreelistHelper.hpp:116-127 | the class of a size is the first whose limit admits it, or the last one |
| Freelist.FreelistHelper.GetBinIdForSize | include/storage/lib/physical_volume/FreelistHelper.hpp:116-127 | the binary search over the limits finds that class |
| Freelist.PopBinIs | include/storage/lib/physical_volume/FreelistHelper.hpp:62-86 | which class serves a size: the least non-empty one whose limit admits it; else, for at least 3840 bytes, the greatest non-empty one above class 5; else none |
| Freelist.FreelistHelper.PopFreeEntryOffset | include/storage/lib/physical_volume/FreelistHelper.hpp:62-86 | takes and empties the class that serves the size, or changes nothing if none does |
| Freelist.FreelistHelper.PushFreeEntry | include/storage/lib/physical_volume/FreelistHelper.hpp:88-93 | replaces the head of one class and returns the old one |
| Freelist.ClustersServeEverySize | include/storage/lib/physical_volume/FreelistHelper.hpp:62-86 | a non-empty cluster class serves every size; sizes above 64 are never served from the three small classes |
| Freelist.SmallClassesRefuse | include/storage/lib/physical_volume/FreelistHelper.hpp:62-86 | requests for more than a simple header never come from the two simple classes |
| EntriesAllocator.PVEntriesAllocator.ExpandPV | include/storage/lib/physical_volume/PVEntriesAllocator.hpp:20-47 | appends the requested clusters, rounded up to whole batches, each with its link, no sequel, and filler behind its header; succeeds exactly if all of them fit the device, and otherwise appends the batches that do |
| EntriesAllocator.LinkedExactly | include/storage/lib/physical_volume/PVEntriesAllocator.hpp:32-46 | each new cluster links to the one before it and the last one is returned if and only if there was no free block to start with or it was the last cluster |
| Shape.NewClustersList | include/storage/lib/physical_volume/PVEntriesAllocator.hpp:32-46 | the appended clusters form a list that visits each once, at decreasing offsets, and ends |
| Blocks.DetachSound | include/storage/lib/physical_volume/PVEntriesManager.hpp:340-356 | taking a head and restoring the rest of its list keeps the invariant |
| Blocks.CutSound | include/storage/lib/physical_volume/PVEntriesManager.hpp:314-338 | splitting a block keeps the invariant, tiling included |
| Blocks.ReleaseSound | include/storage/lib/physical_volume/PVEntriesManager.hpp:188-194 | turning an entry into the head of a free list keeps the invariant |
| Blocks.PlaceSound | include/storage/lib/physical_volume/PVEntriesManager.hpp:152-159 | placing a header into a block handed out keeps the invariant |
| Image.GrownSound | include/storage/lib/physical_volume/PVEntriesManager.hpp:298-303 | appending clusters and pushing the last one keeps the invariant |
| Image.FreeBlockBytes | include/storage/lib/physical_volume/PVEntriesManager.hpp:314-338 | where type, link and size of a free block lie |
| Image.HoldsCut | include/storage/lib/physical_volume/PVEntriesManager.hpp:314-338 | writing the header of the remainder makes the device an image of the split state and touches no other block |
| Image.HoldsRelease | include/storage/lib/physical_volume/PVEntriesManager.hpp:188-194 | writing the freed header makes the device an image of the state after the release |
| Allocation.AllocatedSound | include/storage/lib/physical_volume/PVEntriesManager.hpp:274-296 | an allocation hands out a block that was free, is large enough for a simple header, and changes no other block |
| Allocation.AllocatedShaped | include/storage/lib/physical_volume/PVEntriesManager.hpp:274-338 | an allocation for a fixed-size value keeps the shape of the free lists |
| Segregation.ChunkSegregated | include/storage/lib/physical_volume/PVEntriesManager.hpp:250-296 | while the lists are segregated, a request of more than 64 bytes yields a complex block, cut to size or used up to its end; used-up blocks keep the lists segregated |
| Segregation.AllocatedSegregated | include/storage/lib/physical_volume/PVEntriesManager.hpp:274-338 | an allocation for a fixed-size value keeps simple and complex free blocks in lists of their own |
| Segregation.CutSegregatedExactly | include/storage/lib/physical_volume/PVEntriesManager.hpp:314-338 | splitting a block keeps the lists segregated if and only if the remainder does not meet a block of the other sort in class 2 |
| Segregation.ReleaseSegregated | include/storage/lib/physical_volume/PVEntriesManager.hpp:188-194 | deleting a fixed-size value keeps the lists segregated |
| Segregation.ValueFreedSegregated | include/storage/lib/physical_volume/PVEntriesManager.hpp:196-224 | so does deleting a long value that leaves the volume intact, if its freed chunks hold more than 32 bytes |
| Shape.ReleaseShaped | include/storage/lib/physical_volume/PVEntriesManager.hpp:188-194 | deleting a fixed-size value keeps the shape of the free lists |
| Shape.GrownShaped | include/storage/lib/physical_volume/PVEntriesManager.hpp:298-303 | growing keeps the shape of the free lists |
| Conservation.EveryByteOwned | include/storage/lib/physical_volume/PVEntriesManager.hpp:274-356 | a byte belongs to a block exactly if it lies behind the headers, and to one block only |
| Conservation.WalkEnds | include/storage/lib/physical_volume/PVEntriesManager.hpp:340-356 | following the links of a list meets its blocks in order and stops: no cycles |
| Conservation.ClassContents | include/storage/lib/physical_volume/FreelistHelper.hpp:62-102 | class 0 and class 1 hold 12-byte and 16-byte blocks, classes 2 to 9 together at most one block, class 10 clusters at decreasing offsets of which only the first may be cut |
| Conservation.FreeMeansListed | include/storage/lib/physical_volume/PVEntriesManager.hpp:185-194 | a free block is in exactly one list unless a failed growth lost it; other blocks are in none |
| DataReaderWriter.PVDeviceDataReaderWriter.ReadComplexType | include/storage/lib/physical_volume/PVDeviceDataReaderWriter.hpp:50-78 | where a value begins, reading its chain yields it if it is at most 400 MiB, empty chunks included; otherwise the header is reported as corrupted |
| DataReaderWriter.PVDeviceDataReaderWriter.WriteComplexType | include/storage/lib/physical_volume/PVDeviceDataReaderWriter.hpp:80-103 | a chunk write takes as much data as the block admits and returns how much |
| DataReaderWriter.ChunkIsWritten | include/storage/lib/physical_volume/PVDeviceDataReaderWriter.hpp:80-103 | afterwards the block holds that piece as a chunk, and nothing outside the block has changed |
| DataReaderWriter.ChunkBytes | include/storage/lib/physical_volume/PVDeviceDataReaderWriter.hpp:80-103 | where the mark, the bytes that remain, the size of the piece, the sequel and the piece itself lie in a chunk |
| DataReaderWriter.ChainSpellsOne | include/storage/lib/physical_volume/PVDeviceDataReaderWriter.hpp:50-78 | a chain, which may have empty chunks, determines the value it spells |
| ShortValues.InsideExactly | include/storage/lib/physical_volume/PVDeviceDataReaderWriter.hpp:80-103 | writing a chunk changes no other block, whatever the data, if and only if 32 bytes and the smaller of chunk size and data do not exceed what the block owns |
| Chains.ChainIsComplete | include/storage/lib/physical_volume/PVEntriesManager.hpp:256-271 | chunks that make up the whole value form a chain that spells it |
| Chains.ChainExtended | include/storage/lib/physical_volume/PVEntriesManager.hpp:259-269 | one more chunk at the end extends the chain by its bytes |
| Chains.ChainKept | include/storage/lib/physical_volume/PVEntriesManager.hpp:259-269 | a chain does not notice writes to blocks that are not its own |
| Chains.ChunksAddUp | include/storage/lib/physical_volume/PVEntriesManager.hpp:256-269 | the chunk sizes add up to the number of bytes written |
| Chains.ChunkInBlock | include/storage/lib/physical_volume/PVDeviceDataReaderWriter.hpp:80-103 | a block handed out for a chunk takes it without touching any other block |
| ChunkSupply.WriteOver | include/storage/lib/physical_volume/PVEntriesManager.hpp:256-269 | written over any disjoint free blocks of positive capacity that suffice, a value reads back as itself if it is at most 400 MiB; the chunks add up to it, and no byte outside the blocks used changes |
| EntrySteps.WrittenReadsBack | include/storage/lib/physical_volume/PVEntriesManager.hpp:250-272 | a value written by the real allocator reads back as itself, lies in new and distinct blocks, and leaves one spare block behind |
| EntrySteps.LiveOnDevice | include/storage/lib/physical_volume/PVEntriesManager.hpp:95-102 | reading a live entry yields its value |
| EntrySteps.NewHeader | include/storage/lib/physical_volume/PVEntriesManager.hpp:152-159 | the header of a new entry stands for its value without an expiry date, whatever the uninitialised memory held |
| EntrySteps.UpdateStep | include/storage/lib/physical_volume/PVEntriesManager.hpp:227-235 | setting a date changes the date of that entry and nothing else |
| EntrySteps.NewBlock | include/storage/lib/physical_volume/PVEntriesManager.hpp:274-312 | the block of a new entry is apart from everything in use, and the volume has grown exactly by the new clusters |
| EntrySteps.ReleasedServes | include/storage/lib/physical_volume/PVEntriesManager.hpp:188-194 | a freed block serves its size, and sizes served before are served still |
| EntrySteps.AllocatedLeaves | include/storage/lib/physical_volume/PVEntriesManager.hpp:274-312 | an allocation that makes the volume grow leaves clusters for the next one, whatever its size |
| EntriesManager.PVEntriesManager.GetFreeOffset | include/storage/lib/physical_volume/PVEntriesManager.hpp:298-312 | succeeds exactly if a class serves the size or the device takes the clusters of the next growth; takes the head of the class that serves the size, and grows only if there is none |
| EntriesManager.PVEntriesManager.GetFreeEntryOffset | include/storage/lib/physical_volume/PVEntriesManager.hpp:274-296 | succeeds exactly under that condition; the new state is one allocation step away from the old or grown one; all blocks keep their bytes |
| EntriesManager.PVEntriesManager.SplitEntries | include/storage/lib/physical_volume/PVEntriesManager.hpp:314-338 | writes the header of the remainder, by its size, in front of its class |
| EntriesManager.PVEntriesManager.CreateSimpleEntry | include/storage/lib/physical_volume/PVEntriesManager.hpp:146-161 | succeeds exactly if there is room for the header: then a new live entry with the value and no date; all other entries keep their bytes; shape and segregation of the lists kept |
| EntriesManager.PVEntriesManager.CreateNewEntryValue | include/storage/lib/physical_volume/PVEntriesManager.hpp:75-93 | a value of any type is read back at the offset returned, but for empty and oversized ones; all other entries keep their bytes; fixed-size values are stored exactly if there is room, and a long one is refused only where its writer is stuck |
| EntriesManager.PVEntriesManager.GetEntryContent | include/storage/lib/physical_volume/PVEntriesManager.hpp:95-102 | the value at an offset, or the error for unknown types, oversized values and chains without a beginning |
| EntriesManager.PVEntriesManager.GetEntryExpiredDate | include/storage/lib/physical_volume/PVEntriesManager.hpp:176-183 | the expiry date of an entry, if it has one |
| EntriesManager.PVEntriesManager.SetEntryExpiredDate | include/storage/lib/physical_volume/PVEntriesManager.hpp:227-235 | sets the date of one entry and keeps its value and all other blocks |
| EntriesManager.PVEntriesManager.GetLongExpiredDate | include/storage/lib/physical_volume/PVEntriesManager.hpp:176-183 | the expiry date in the first header of a long value, if it has one |
| EntriesManager.PVEntriesManager.SetLongExpiredDate | include/storage/lib/physical_volume/PVEntriesManager.hpp:227-235 | the date of a long value can be read, the value cannot any more; all other blocks keep their bytes |
| EntriesManager.PVEntriesManager.DeleteEntry | include/storage/lib/physical_volume/PVEntriesManager.hpp:185-195 | the entry's block becomes the head of the free list of its size, which has room for another such entry; whatever had room before has it still; nothing else changes |
| EntriesManager.PVEntriesManager.DeleteComplexEntry | include/storage/lib/physical_volume/PVEntriesManager.hpp:196-224 | the first two chunks of a long value are freed and no further one; the volume stays intact, and no free block is lost, exactly under the two conditions on heads and chunk sizes; all other blocks keep their bytes |
| FreedChunks.IntactExactly | include/storage/lib/physical_volume/PVEntriesManager.hpp:200-221 | after one or two chunks have been freed no block is referred to twice if and only if the head each is linked to was none or has been replaced |
| FreedChunks.KeptExactly | include/storage/lib/physical_volume/PVEntriesManager.hpp:200-221 | every free block stays in some list if and only if no head was replaced without a link to it |
| FreedChunks.SameClassExactly | include/storage/lib/physical_volume/PVEntriesManager.hpp:203-206 | a chunk goes to the class it is linked to if and only if no limit lies within 32 bytes above its size |
| FreedChunks.SameClassesSuffice | include/storage/lib/physical_volume/PVEntriesManager.hpp:203-206 | then the volume stays intact and loses nothing, whatever the lists contain |
| SharedBlock.HandedOutTwice | include/storage/lib/physical_volume/PVEntriesManager.hpp:203-206 | in a new volume, after two long values have been stored and the first deleted, the third of three requests is served with a block that is in use |
| LongDeletion.ChunkFreedOnDevice | include/storage/lib/physical_volume/PVEntriesManager.hpp:200-206 | the device after a chunk has been freed is an image of the state after it |
| LongDeletion.FreedExactlyUpToTwo | include/storage/lib/physical_volume/PVEntriesManager.hpp:209-223 | a value is freed as a whole if and only if it has at most two chunks |
| LongDeletion.TwoFreed | include/storage/lib/physical_volume/PVEntriesManager.hpp:196-223 | after two rounds the rest of the chain and every other block are as they were |
| EntriesManager.PVEntriesManager.WriteComplexType | include/storage/lib/physical_volume/PVEntriesManager.hpp:250-272 | writes a value as a chain in new, distinct blocks, if its first block takes all of it, or if the lists are segregated and it has more than 24 bytes or fits the simple block it is handed; an empty value is left unreadable; all live entries keep their bytes; fails only where there is no room for the block that is to take what has not been written yet, always if that is the first one, and never if one block takes the value and the volume can grow |
| EntrySteps.AdmittedChunk | include/storage/lib/physical_volume/PVEntriesManager.hpp:250-263 | the block for a value that the allocator admits is ready to take all of it |
| ShortValues.ShortIntactExactly | include/storage/lib/physical_volume/PVEntriesManager.hpp:250-263 | a value of at most 24 bytes handed the simple block of class 2 changes no other block, whatever its bytes, if and only if it fits behind the header for as much as the chunk field promises |
| EntriesManager.PVEntriesManager.FixedStorable | include/storage/lib/physical_volume/PVEntriesManager.hpp:250-272 | in a volume of fixed-size values a value of any length can be stored |
| Blanks.BlankCut | include/storage/lib/physical_volume/PVEntriesManager.hpp:314-338 | in a volume of fixed-size values a simple remainder in class 2 has zeros where its chunk size would be |
| ShortOverrun.Allocations | include/storage/lib/physical_volume/PVEntriesManager.hpp:250-263 | the blocks handed out for a value of 3751 bytes and then one of 24 in a new volume |
| ShortOverrun.ShortValueOverruns | include/storage/lib/physical_volume/PVEntriesManager.hpp:250-272 | the second value overwrites the first seven bytes of the first one, which could be read before |
| EntriesManager.PVEntriesManager.SaveStartEntries | include/storage/lib/physical_volume/PVEntriesManager.hpp:62-73 | writes header and list heads and leaves the blocks alone |
| EntriesManager.PVEntriesManager.LoadStartEntries | include/storage/lib/physical_volume/PVEntriesManager.hpp:36-60 | the error for a short device, a wrong signature, a version with a greater number or a missing index; otherwise the state of the closed volume |
| AhoCorasick.AhoCorasickEngine.Insert | include/storage/lib/inverted_index/AhoCorasickEngine.hpp:27-41 | all prefixes become paths and the key gets the leaf |
| AhoCorasick.AhoCorasickEngine.Get | include/storage/lib/inverted_index/AhoCorasickEngine.hpp:43-51 | the leaf of the path, or the value for none |
| AhoCorasick.AhoCorasickEngine.HasKey | include/storage/lib/inverted_index/AhoCorasickEngine.hpp:64-67 | whether the path has a leaf |
| AhoCorasick.AhoCorasickEngine.Delete | include/storage/lib/inverted_index/AhoCorasickEngine.hpp:53-62 | the leaf is gone, the path stays |
| AhoCorasick.AhoCorasickEngine.FindMaxSubKey | include/storage/lib/inverted_index/AhoCorasickEngine.hpp:69-83 | the length of the longest prefix that is a path |
| AhoCorasick.TrieRefinesMap | include/storage/lib/inverted_index/AhoCorasickEngine.hpp:27-67 | after any run of inserts and deletes, lookups agree with a plain map; inserting the greatest value counts as removing |
| AhoCorasick.PathsArePrefixes | include/storage/lib/inverted_index/AhoCorasickEngine.hpp:27-62 | after any run, the paths are the root and the prefixes of all keys ever inserted |
| AhoCorasick.Execute | include/storage/lib/inverted_index/AhoCorasickEngine.hpp:27-67 | a run of a new engine leads to the trie of the run: lookups agree with the plain map, and the paths are the root and the prefixes of all keys inserted |
| AhoCorasick.MaxSubKeyDecides | include/storage/lib/inverted_index/AhoCorasickEngine.hpp:69-83 | the longest path decides about all prefixes of a key |
| AhoCorasickSerialization.AhoCorasickSerializationHelper.Serialize | include/storage/lib/inverted_index/AhoCorasickSerializationHelper.hpp:28-69 | for every iteration order of routes, the buffer is the serialized form of a breadth-first listing of the whole trie |
| AhoCorasickSerialization.AhoCorasickSerializationHelper.ConstructResultSerializedBuffer | include/storage/lib/inverted_index/AhoCorasickSerializationHelper.hpp:165-188 | header, leaf table and node table, one after the other |
| AhoCorasickSerialization.AhoCorasickSerializationHelper.Deserialize | include/storage/lib/inverted_index/AhoCorasickSerializationHelper.hpp:71-133 | a serialized form gives the trie back if and only if the root has no leaf, and but for that leaf otherwise; every strict prefix and every newer version is rejected; an error never changes the engine, and no buffer shorter than its node table is accepted |
| AhoCorasickSerialization.AhoCorasickSerializationHelper.DeserializeDataHeader | include/storage/lib/inverted_index/AhoCorasickSerializationHelper.hpp:190-209 | the header, or the error for a short buffer, a newer version or another id size |
| AhoCorasickSerialization.AhoCorasickSerializationHelper.DeserializeLeafDescriptors | include/storage/lib/inverted_index/AhoCorasickSerializationHelper.hpp:211-229 | an error if and only if the first record is cut off; all leafs of a complete table; behind a truncated one less than a leaf record remains |
| AhoCorasickSerialization.AhoCorasickSerializationHelper.RebuildTrie | include/storage/lib/inverted_index/AhoCorasickSerializationHelper.hpp:82-130 | the level maps rebuild every node below its parent |
| IndexReading.NextRecord | include/storage/lib/inverted_index/AhoCorasickSerializationHelper.hpp:102-129 | the parent of the next record is on the previous level, its path is new, and its leaf is in the table |
| IndexReading.NextLevel | include/storage/lib/inverted_index/AhoCorasickSerializationHelper.hpp:104-108 | moving on one level at a deeper record keeps both level maps exact |
| IndexReading.HeaderBytes | include/storage/lib/inverted_index/aho_corasick_serialization_headers.hpp:86-105 | the serialized form starts with the number of leafs, the number of nodes, the version and the width of ids, in this order |
| IndexReading.LeafRecordBytes | include/storage/lib/inverted_index/aho_corasick_serialization_headers.hpp:36-49 | the record of each leaf: the id of its node, then the leaf |
| IndexReading.NodeRecordBytes | include/storage/lib/inverted_index/aho_corasick_serialization_headers.hpp:12-34 | the record of each node: its id, its parent, its depth, the number of its leaf or none, and its character, which is a slash for the root |
| IndexProperties.RecordsAreLevelled | include/storage/lib/inverted_index/AhoCorasickSerializationHelper.hpp:46-66 | in every serialized form, records are numbered in order, depths never decrease, and each parent stands before its child and one level higher |
| IndexProperties.EveryNodeOnce | include/storage/lib/inverted_index/AhoCorasickSerializationHelper.hpp:46-66 | every node of the trie has exactly one record |
| IndexProperties.LeafTableIsExact | include/storage/lib/inverted_index/AhoCorasickSerializationHelper.hpp:48-55 | the leaf table holds the ids and leafs of exactly the nodes that have one, and records point into it correctly |
| IndexProperties.SerializedFormDecides | include/storage/lib/inverted_index/AhoCorasickSerializationHelper.hpp:28-69 | tries with the same serialized form are equal |
| InvertedIndex.InvertedIndexHelper.Insert | include/storage/lib/inverted_index/InvertedIndexHelper.hpp:22-29 | the empty key is refused and changes nothing; otherwise the key gets the leaf and the index counts as changed |
| InvertedIndex.InvertedIndexHelper.Get | include/storage/lib/inverted_index/InvertedIndexHelper.hpp:31-43 | the leaf of the key, or the value for none |
| InvertedIndex.InvertedIndexHelper.Delete | include/storage/lib/inverted_index/InvertedIndexHelper.hpp:45-52 | exactly the leaf of that key is removed |
| InvertedIndex.InvertedIndexHelper.FindMaxSubKey | include/storage/lib/inverted_index/InvertedIndexHelper.hpp:61-66 | the length of the longest prefix that is a path |
| InvertedIndex.InvertedIndexHelper.Serialize | include/storage/lib/inverted_index/InvertedIndexHelper.hpp:70-74 | the serialized form of the trie, with one record for each path and one for each key that has a leaf |
| InvertedIndex.InvertedIndexHelper.Deserialize | include/storage/lib/inverted_index/InvertedIndexHelper.hpp:76-84 | a new, unchanged index from a serialized form; strict prefixes are rejected |
| VolumeMap.StoredUnder | include/storage/PVManager.hpp:88-90 | a new entry under a new key adds exactly that key to the map and keeps the one-to-one relation of keys and entries |
| VolumeMap.DeletedUnder | include/storage/PVManager.hpp:166-167 | deleting entry and key removes exactly that key |
| VolumeMap.DatedUnder | include/storage/PVManager.hpp:183-184 | setting a date changes exactly the date of that key |
| VolumeMap.OneToOne | include/storage/PVManager.hpp:88-90 | without entries under the empty key, keys and live entries correspond one to one |
| VolumeMap.ExpiredIsNumeric | include/storage/PVManager.hpp:256-259 | an entry is hidden exactly if its date, saturated at 48 bits, is below the clock |
| VolumeMap.PurgesExactly | include/storage/PVManager.hpp:107-141 | an access removes an entry exactly if its date, saturated, is below the clock, never one without a date, and no other key; what is shown is what stays |
| VolumeMap.DatesReadBack | include/storage/PVManager.hpp:192-211 | a date that was set is read back as itself if and only if it is below 2^32 or the one fixed point |
| VolumeMap.ReadDateIs | include/storage/PVManager.hpp:201-206 | an entry without a date is reported as such; any other date reads back shifted |
| VolumeMap.PurgeIsUnobservable | include/storage/PVManager.hpp:107-141 | while the clock does not run backwards, no later Get or HasKey notices that an expired entry has been purged |
| VolumeMap.PutAlters | include/storage/PVManager.hpp:76-95 | a run on an empty volume that puts a value under a proper key adds or removes a key |
| PVManager.PVManager.Create | include/storage/PVManager.hpp:59-74 | an empty volume with all invariants; fails only if the headers do not fit; it has room exactly if the device takes five clusters |
| PVManager.PVManager.Put | include/storage/PVManager.hpp:76-95 | adds a new key with its value; refuses exactly the keys present; otherwise fails exactly if there is no room for the header of the value, and then changes nothing; strands an entry exactly under the empty key; adds the prefixes of the key to the index and marks it as changed |
| PVManager.PVManager.Get | include/storage/PVManager.hpp:97-120 | an entry with a date is removed exactly if the date, saturated at 48 bits, is below the clock; an entry without one and all other keys stay; the value of a key that stays is returned, and a removed one leaves room for its like |
| PVManager.PVManager.HasKey | include/storage/PVManager.hpp:122-143 | whether the key stays, with the same removal of an expired entry |
| PVManager.PVManager.HasCatalog | include/storage/PVManager.hpp:145-156 | whether any key ever stored starts with the first character of the catalog |
| PVManager.PVManager.Delete | include/storage/PVManager.hpp:158-173 | removes exactly that key, and leaves room for a value of the same header size |
| PVManager.PVManager.SetExpiredDate | include/storage/PVManager.hpp:175-190 | sets the date of exactly that key and keeps its value; what there is room for stays the same |
| PVManager.PVManager.GetExpiredDate | include/storage/PVManager.hpp:192-211 | KeyNotFound without the key, KeyDoesntExpired without a date; otherwise the lower 32 bits of the date that was set, with the bits above them moved up by 16 |
| PVManager.PVManager.EveryByteAccounted | include/storage/lib/physical_volume/PVEntriesManager.hpp:146-356 | every byte behind the headers belongs to one block, which is an entry or in exactly one free list |
| PVManager.PVManager.Close | include/storage/PVManager.hpp:237-254 | the device then holds a saved volume with the map as it was, also when the index replaces one stored before; without an index it is refused by every reader; fails only where the writer of a changed index is stuck for want of room, always if there is none for its first block, and never if one block takes the index and the volume can grow |
| PVManager.PVManager.Load | include/storage/PVManager.hpp:38-52 | a saved volume is loaded with its map exactly if its start is accepted and its index is not too long; otherwise which error; versions count as 256 times the major number and the minor one |
| PVManager.CanStoreAgain | include/storage/PVManager.hpp:242-248 | when a changed index can be stored in place of the one stored before |
| PVManager.Reopen | include/storage/PVManager.hpp:237-254 | closing and loading again gives the same map; it fails only if the writer of the index is stuck for want of room, if there is no index, or if it is too long |
| VolumeRuns.Perform | include/storage/PVManager.hpp:76-190 | one operation changes the map as on a plain map, and is left out exactly if it puts a new key and there is no room for it; all that closing later relies on is kept |
| VolumeRuns.FirstPut | include/storage/PVManager.hpp:76-95 | the first value fits a new volume exactly if the device takes 124 bytes and five clusters |
| VolumeRuns.Replace | include/storage/PVManager.hpp:158-173 | however full the device is, a value put after a deletion is stored if its header is as long as that of the deleted one |
| VolumeRuns.Renew | include/storage/PVManager.hpp:97-120 | an expired key is refused until an access has found it out; then a value with as long a header is always stored and is what the key yields |
| VolumeRuns.Execute | include/storage/PVManager.hpp:76-190 | a run of operations leads to the map of the same run on a plain map, without the puts that found no room; a key depends only on the operations that name it, a value without a date stays until the run deletes its key or sets one, and no block is lost unless a put found no room |
| VolumeRuns.Session | include/storage/PVManager.hpp:38-52 | using, closing and loading a volume, new or loaded before, gives the map of the run, and tells when the lists are segregated afterwards |
| VolumeRuns.RunVolume | include/storage/PVManager.hpp:237-254 | creating, using, closing and loading a volume gives the map of the run; it fails only without room, with too long an index, or if the run has not altered the volume |
| StoredIndex.BlobReadable | include/storage/PVManager.hpp:42-44 | the stored index reads back as the serialized form, unless it is too long |
| StoredIndex.BlobSurvives | include/storage/PVManager.hpp:237-254 | no operation on fixed-size entries touches the stored index |
| StoredIndex.SavedIsAccepted | include/storage/PVManager.hpp:38-52 | a saved volume is accepted exactly by managers whose version number is not less than its own |
| StoredIndex.NoIndexIsRefused | include/storage/PVManager.hpp:237-254 | a volume closed without an index is refused by every manager |
| Overlay.RouteDecides | include/storage/Storage.hpp:263-274 | the longest path decides: a key leads to a mounted path exactly if it starts with it and agrees with no mounted path beyond it |
| Overlay.ResolvesToOne | include/storage/Storage.hpp:263-274 | a key leads to at most one group |
| Overlay.PrefixFreeRoutes | include/storage/Storage.hpp:263-274 | among prefix-free paths, a key leads to the one it starts with |
| Overlay.GroupIsOrdered | include/storage/Storage.hpp:288-300 | after any sequence of mounts a group holds each once; seen from the end, priorities decrease and equal ones come in mount order |
| Overlay.LowerBoundOfSorted | include/storage/Storage.hpp:289-293 | the place of insertion is the first priority that is not lower |
| Overlay.RankIsPriority | include/storage/Storage.hpp:289-293 | the unsigned comparison of two priorities is the numeric one if and only if both are negative or neither is |
| Overlay.GroupInOrderExactly | include/storage/Storage.hpp:288-300 | after any sequence of mounts a group is visited by decreasing priorities if and only if they have one sign; otherwise negative ones come first |
| Overlay.PutThenGet | include/storage/Storage.hpp:28-75 | without expired entries, a value put is what a later access yields exactly if no volume visited before the one it went to has the key; otherwise the access is unchanged |
| Overlay.DeleteThenGet | include/storage/Storage.hpp:52-147 | deleting uncovers what the volumes behind hold, if no two mounts ask one volume for one key |
| Overlay.SetThenReadDate | include/storage/Storage.hpp:149-196 | a date that was set is the one read afterwards, as far as dates read back |
| Overlay.GetsFirst | include/storage/Storage.hpp:52-75 | the value read is that of the first volume visited that shows the key |
| Overlay.GetThenReadDate | include/storage/Storage.hpp:52-75 | after a Get, no volume in front of the one that answered has the key, that one and those behind it have what they had, and the date read comes from these |
| Overlay.PutsFirst | include/storage/Storage.hpp:28-50 | a value goes to the first volume visited that neither has the key nor lacks room, and nowhere else |
| Overlay.DeletesFirst | include/storage/Storage.hpp:125-147 | a deletion takes away one entry, that of the first volume visited that has the key |
| Overlay.DatesFirst | include/storage/Storage.hpp:149-171 | setting a date changes one entry, that of the first volume visited that has the key, and keeps its value |
| Overlay.ReadsFirstDate | include/storage/Storage.hpp:173-196 | the date read is that of the first volume visited that has one, entries without a date passed over; KeyNotFound if there is none |
| Overlay.DateOfValueExactly | include/storage/Storage.hpp:173-196 | value and date come from one volume, or there is no date, if and only if no volume in front of the one that yields the value has the key, and that one has a date or none behind it has |
| Overlay.DateOfAnotherValue | include/storage/Storage.hpp:173-196 | a case in which the value read and the date read belong to different volumes |
| Storage.OneGroupPerPath | include/storage/Storage.hpp:276-301 | mounted paths and groups correspond one to one unless something is mounted at the empty path |
| Storage.SearchLowerBound | include/storage/Storage.hpp:289-293 | the binary search finds the place of insertion |
| Storage.Storage.ViewsDated | include/storage/Storage.hpp:173-196 | the dates in all mounted volumes fit their fields, as the laws of the overlay need |
| Storage.Storage.GetVolumeGroupRange | include/storage/Storage.hpp:263-274 | the group of the path the key leads to, or the error exactly if it leads to none |
| Storage.Storage.AddNewMountPoint | include/storage/Storage.hpp:276-301 | the group of the path becomes the one built by one more mount; all others stay |
| Storage.Storage.Mount | include/storage/Storage.hpp:204-221 | refuses a volume exactly if no key it ever stored starts with the first character of the catalog; otherwise appends one mount, with the priority of the volume, to those of the path, and changes no volume |
| Storage.Storage.Put | include/storage/Storage.hpp:28-50 | stores into the first volume visited that neither has the key nor lacks room for the value, as they were before the call; fails exactly if there is none; changes no other volume |
| Storage.Storage.Get | include/storage/Storage.hpp:52-75 | the value of the first volume visited that shows the key; an entry is removed exactly if it had expired and its volume was asked for it up to that one |
| Storage.Storage.HasKey | include/storage/Storage.hpp:77-98 | whether any volume of the group shows the key; the same entries are removed |
| Storage.Storage.Delete | include/storage/Storage.hpp:125-147 | deletes from the first volume visited that has the key, and from no other |
| Storage.Storage.SetExpiredDate | include/storage/Storage.hpp:149-171 | sets the date in the first volume visited that has the key, and in no other |
| Storage.Storage.GetExpiredDate | include/storage/Storage.hpp:173-196 | the date of the first volume visited that has the key with a date |
| Storage.GetWithDate | include/storage/Storage.hpp:52-75 | a Get followed by GetExpiredDate yields the value shown first and the first date from there on |

## Left out

- PVManager.PVManager.Put: takes fixed-size values only, because a long value cannot be read once it has a date, and deleting one may make two lists share a block (see above); long values are covered in `PVEntriesManager`.
- PVManager.PVManager.Close: a changed index that replaces one stored before must be one that can be stored, `CanStore`; otherwise deleting the old one may make two lists share a block.
- VolumeRuns.Session: when an index takes several chunks, whether the lists are still segregated after the close is a property of the closed volume, not promised.
- PVManager.PVManager.Load: a device whose start is accepted must hold a closed volume; the chain walk over arbitrary bytes is not modelled.
- EntriesManager.PVEntriesManager.WriteComplexType: requires `Storable`; what a value that runs over its block leaves of the blocks behind is stated for one run only. For a value of several chunks, a failure is tied to the request that finds no room, not to the state before the call.
- AhoCorasickSerialization.AhoCorasickSerializationHelper.Deserialize: for buffers that no serializer writes only the checks of header and length and the untouched engine after an error are stated; records that replace a node leave a dangling pointer in the library.
- EntriesAllocator.PVEntriesAllocator.ExpandPV: the growth factor is computed over the reals, without the rounding of floating-point numbers.
- The file device, paths, the manager factory and its cache; the device is the byte vector, and device failures other than a full device do not occur.
- Locks: every operation runs wholly under one and is modelled as atomic. The clock is a parameter.
- Error messages, out-of-memory failures and the destructor that calls `close`; the exceptions it swallows are a result here.
- HasCatalog of the storage: the same loop over the same groups as the operations modelled.
- Other cluster sizes, 4-byte offsets and 4-byte node ids.
- The meaning of floating-point values: they are carried as bit patterns.
