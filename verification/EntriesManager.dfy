/** Entries on the device: allocation, simple entries, and complex values as chains of blocks. */
module EntriesManager {
  import opened Bytes
  import opened Errors
  import opened Layout
  import opened Freelist
  import opened Blocks
  import opened Image
  import opened Shape
  import opened Allocation
  import opened Device
  import opened DataReaderWriter
  import opened Chains
  import opened EntriesAllocator
  import opened Time
  import opened Values
  import opened Versions
  import opened VolumeHeader
  import opened FreedChunks
  import opened LongDeletion
  import opened Segregation
  import opened Blanks
  import opened EntrySteps

  /** Memory that nothing has initialised. */
  method Indeterminate(size: nat) returns (s: seq<byte>)
    ensures |s| == size
  {
    s := [];
    while |s| < size
      invariant |s| <= size
    {
      var b: byte := *;
      s := s + [b];
    }
  }

  class PVEntriesManager {
    const rw: PVDeviceDataReaderWriter
    const freelist: FreelistHelper
    const allocator: PVEntriesAllocator
    const version: Version
    var priority: int
    var clusterSize: int
    /** What the device and the list heads stand for. */
    ghost var st: State
    /** The free lists, as long as only fixed-size values have been stored. */
    ghost var lists: Lists

    constructor (device: TestDevice, version: Version, priority: int, clusterSize: nat)
      ensures rw.device == device && this.clusterSize == rw.clusterSize == clusterSize
      ensures this.version == version && this.priority == priority
      ensures freelist.Valid() && freelist.offsets[..] == st.bins && st == EMPTY && lists == NO_LISTS
      ensures allocator.Valid() && allocator.lastCount == 5.0 && fresh(freelist.offsets) && fresh(allocator)
    {
      this.rw := new PVDeviceDataReaderWriter(device, clusterSize);
      this.freelist := new FreelistHelper();
      this.allocator := new PVEntriesAllocator();
      this.version := version;
      this.priority := priority;
      this.clusterSize := clusterSize;
      this.st := EMPTY;
      this.lists := NO_LISTS;
    }

    ghost function Repr(): set<object>
    {
      {this, rw.device, freelist.offsets, allocator}
    }

    lemma Parts()
      ensures this in Repr() && rw.device in Repr() && freelist.offsets in Repr() && allocator in Repr()
    {
    }

    /** The parts that never change, and the device. */
    ghost predicate Base()
      reads Repr()
    {
      && rw.device.Valid() && freelist.Valid() && allocator.Valid()
      && clusterSize == rw.clusterSize == CLUSTER_SIZE && -I31 <= priority < I31
      && allocator.deviceEnd == st.end
    }

    ghost predicate Valid()
      reads Repr()
    {
      && Base()
      && Sound(st) && Holds(rw.device.storage, st)
      && freelist.offsets[..] == st.bins
    }

    /** Have the free lists the shape that volumes of fixed-size values keep, and are their blocks blank? */
    ghost predicate FixedOnly()
      reads this, rw.device
    {
      Shaped(st, lists) && Blank(rw.device.storage, st)
    }

    /** Offsets of live entries are offsets the index can hold: neither 0 nor the greatest one. */
    lemma LiveOffset(o: nat)
      requires Valid() && o in st.live
      ensures 0 < o < U64 - 1 && o !in st.used
    {
      LiveBlock(st, o);
      SplitFits(rw.device.storage, st, o);
    }

    lemma UsedOffset(o: nat)
      requires Valid() && o in st.used
      ensures 0 < o < U64
    {
      UsedBlock(st, o);
      SplitFits(rw.device.storage, st, o);
    }

    /** The first block of a chain just written is neither 0 nor beyond the offsets of the device. */
    lemma WrittenOffset(blocks: seq<nat>, data: seq<byte>, spare: nat, kind: byte, before: set<nat>)
      requires Valid() && blocks != [] && Writing(rw.device.storage, st, blocks, data, spare, |data|, kind, before)
      ensures 0 < blocks[0] < U64
    {
      assert blocks[0] in blocks;
      UsedOffset(blocks[0]);
    }

    lemma LiveReadable(o: nat)
      requires Valid() && o in st.live && Typed(st.live[o])
      ensures rw.clusterSize == CLUSTER_SIZE && Readable(rw.device.storage, o, [])
      ensures Content(rw.device.storage, o, []) == Ok(EntryOf(st.live[o]).value)
    {
      LiveOnDevice(rw.device.storage, st, o);
    }

    /** A new volume is empty, and its lists have their shape. */
    lemma StartsEmpty()
      requires rw.device.Valid() && freelist.Valid() && allocator.Valid() && st == EMPTY && lists == NO_LISTS
      requires clusterSize == rw.clusterSize == CLUSTER_SIZE && -I31 <= priority < I31
      requires allocator.deviceEnd == |rw.device.storage| == DATA_START && freelist.offsets[..] == st.bins
      ensures Valid() && FixedOnly() && Segregated(st)
      ensures allocator.lastCount == 5.0 ==>
                forall size :: HasRoom(size) <==> DATA_START + 5 * CLUSTER_SIZE <= rw.device.capacity
    {
      EmptyIsSound();
      EmptyIsSegregated();
      FirstGrowth();
    }

    /** What closing the volume relies on. */
    lemma ReadyToClose(indexOffset: nat)
      requires Valid() && (indexOffset == 0 || indexOffset < |rw.device.storage|)
      ensures rw.device.Valid() && freelist.Valid() && freelist.offsets[..] == st.bins
      ensures Sound(st) && Holds(rw.device.storage, st)
      ensures DATA_START <= |rw.device.storage| <= rw.device.capacity
      ensures var h := HeaderFor(indexOffset);
              h.Fits() && h.signature == SIGNATURE && h.pvSize == st.end && h.clusterSize == CLUSTER_SIZE
    {
      SoundBasics(st);
    }

    /** What the device holds after the start of the volume has been written. */
    lemma StartOverBlocks(bytes: seq<byte>, h: PVHeader)
      requires rw.device.Valid() && freelist.Valid() && freelist.offsets[..] == st.bins && Sound(st) && Holds(bytes, st)
      requires |bytes| == |rw.device.storage| && DATA_START <= |bytes|
      requires rw.device.storage[DATA_START..] == bytes[DATA_START..]
      requires h.Fits() && h.signature == SIGNATURE && h.pvSize == st.end && h.clusterSize == CLUSTER_SIZE
      requires rw.device.storage[..DATA_START] == StartBytes(h, freelist.offsets[..])
      ensures Closed(rw.device.storage, st, h) && Kept(bytes, rw.device.storage, st.extent)
    {
      HoldsBehind(bytes, rw.device.storage, st);
      SoundBasics(st);
    }

    // --------------------------------------------------------- the start of the volume

    /** The header that `SaveStartEntries` writes. */
    function HeaderFor(indexOffset: nat): PVHeader
      reads this, allocator
    { PVHeader(SIGNATURE, version, allocator.deviceEnd, clusterSize, priority, indexOffset, BIN_COUNT) }

    /** Writes the volume header and the list heads, in front of whatever blocks there are. */
    method SaveStartEntries(indexOffset: nat) returns (r: Result<()>)
      requires rw.device.Valid() && freelist.Valid()
      requires rw.device.storage == [] || DATA_START <= |rw.device.storage|
      modifies rw.device, allocator`deviceEnd
      ensures rw.device.Valid() && freelist.offsets[..] == old(freelist.offsets[..])
      ensures r.Ok? <==> DATA_START <= rw.device.capacity
      ensures r.Err? ==> r.error == UnknownExceptionType
      ensures r.Ok? ==> && |rw.device.storage| == (if old(rw.device.storage) == [] then DATA_START
                                                   else old(|rw.device.storage|))
                        && rw.device.storage[..DATA_START] == StartBytes(old(HeaderFor(indexOffset)), freelist.offsets[..])
                        && (old(rw.device.storage) != [] ==>
                              rw.device.storage[DATA_START..] == old(rw.device.storage)[DATA_START..])
      ensures r.Ok? ==> allocator.deviceEnd == DATA_START && (old(allocator.Valid()) ==> allocator.Valid())
    {
      var header := HeaderFor(indexOffset);
      var headerWritten := rw.Write(0, header.Pack());
      if headerWritten.Err? {
        return Err(UnknownExceptionType);
      }
      var bins := freelist.GetBins();
      var binsWritten := rw.Write(PV_HEADER_SIZE, Words(bins));
      if binsWritten.Err? {
        return Err(UnknownExceptionType);
      }
      StartWritten(old(rw.device.storage), header, bins);
      allocator.deviceEnd := DATA_START;
      return Ok(());
    }

    /** Reads the start of a volume. The offset returned is that of the serialized index. */
    method LoadStartEntries(ghost volume: State, ghost h: PVHeader) returns (r: Result<nat>)
      requires rw.device.Valid() && freelist.Valid() && allocator.Valid() && rw.clusterSize == CLUSTER_SIZE
      modifies this, freelist.offsets, allocator
      ensures r == if |rw.device.storage| < PV_HEADER_SIZE then Err(DeviceReadError)
                   else
                     var found := UnpackPV(rw.device.storage[0..PV_HEADER_SIZE]);
                     if found.signature != SIGNATURE || version.Number() < found.version.Number()
                        || found.indexOffset == 0
                     then Err(InvalidPVSignatureError)
                     else if |rw.device.storage| < DATA_START then Err(DeviceReadError)
                     else Ok(found.indexOffset)
      ensures r.Ok? <==> Accepted(rw.device.storage, version)
      ensures r.Ok? && Closed(rw.device.storage, volume, h) ==>
                Valid() && st == volume && priority == h.priority && r.value == h.indexOffset
    {
      hide Sound, Holds, UnpackPV, UnpackBins;
      var image := rw.Read(0, PV_HEADER_SIZE);
      if image.Err? {
        return Err(image.error);
      }
      var header := UnpackPV(image.value);
      if header.signature != SIGNATURE {
        return Err(InvalidPVSignatureError);
      } else if version.Less(header.version) {
        return Err(InvalidPVSignatureError);
      } else if header.indexOffset == 0 {
        return Err(InvalidPVSignatureError);
      }
      var heads := rw.Read(PV_HEADER_SIZE, FREELIST_SIZE);
      if heads.Err? {
        return Err(heads.error);
      }
      freelist.SetBins(UnpackBins(heads.value));
      clusterSize := header.clusterSize;
      priority := header.priority;
      allocator.deviceEnd := header.pvSize;
      st, lists := volume, NO_LISTS;
      if Closed(rw.device.storage, volume, h) {
        ClosedStart(rw.device.storage, volume, h);
        SoundBasics(volume);
      }
      return Ok(header.indexOffset);
    }

    // ------------------------------------------------------------------ allocation

    /** Will the device take the clusters of the next growth? */
    ghost predicate CanGrow()
      reads allocator, rw.device
    { allocator.CanGrow(rw.device) }

    /** Is there a free block for `size` bytes, or room for the clusters of the next growth? */
    ghost predicate HasRoom(size: nat)
      reads this`st, allocator, rw.device
    { |st.bins| == BIN_COUNT && (Serves(st.bins, size) || CanGrow()) }

    method GetEntryType(offset: nat) returns (kind: byte)
      requires offset + 2 <= |rw.device.storage|
      ensures kind == rw.device.storage[offset]
    {
      var state := rw.Read(offset, 2);
      kind := state.value[0];
    }

    /** Appends clusters to a volume whose cluster class is empty; nothing refers to them yet. */
    method AppendClusters() returns (r: Result<nat>, ghost count: nat)
      requires Valid() && st.bins[BinId(CLUSTER_SIZE)] == 0
      modifies this`st, this`lists, rw.device, freelist.offsets, allocator
      ensures Valid() && lists == old(lists) && st == Clusters(old(st), count)
      ensures Kept(old(rw.device.storage), rw.device.storage, old(st).extent)
      ensures Blank(old(rw.device.storage), old(st)) ==> Blank(rw.device.storage, st)
      ensures r.Ok? <==> old(CanGrow())
      ensures r.Ok? ==> BATCH <= count && r.value == old(st).end + CLUSTER_SIZE * (count - 1)
      ensures r.Err? ==> r.error == UnknownExceptionType && OutOfRoom(rw.device) && !CanGrow()
    {
      hide Sound, Holds, Kept, Clusters, ClustersFrom, RoundedUp, Blank, LinkFrom;
      SoundBasics(st);
      EndOf(rw.device.storage, st);
      var free := freelist.GetFreeEntry(clusterSize);
      r, count := allocator.ExpandPV(rw, free);
      GrowthStep(old(rw.device.storage), rw.device.storage, st, count);
      st := Clusters(st, count);
    }

    /**
     * Takes the head of a class that admits the size, growing the volume first if there is none. `k` is the class and
     * `count` the number of clusters added. The failure after a growth never happens.
     */
    method GetFreeOffset(size: nat) returns (r: Result<nat>, ghost k: nat, ghost count: nat)
      requires Valid()
      modifies this`st, this`lists, rw.device, freelist.offsets, allocator
      ensures lists == old(lists)
      ensures Base() && Sound(st) && Holds(rw.device.storage, st) && |st.bins| == BIN_COUNT
      ensures Kept(old(rw.device.storage), rw.device.storage, old(st).extent)
      ensures r.Ok? <==> old(HasRoom(size))
      ensures r.Ok? && count == 0 ==> st == old(st) && (old(CanGrow()) ==> CanGrow())
      ensures r.Ok? && count > 0 ==> old(st).bins[10] == 0 && st == Grown(old(st), count) && PopBin(old(st).bins, size) < 0
      ensures r.Ok? && count > 0 ==> BATCH <= count
      ensures r.Ok? ==> k < BIN_COUNT && PopBin(st.bins, size) == k && r.value == st.bins[k]
                        && freelist.offsets[..] == st.bins[k := 0]
      ensures r.Err? ==> Valid() && r.error == UnknownExceptionType && OutOfRoom(rw.device)
                         && st == Clusters(old(st), count) && !HasRoom(size)
      ensures Blank(old(rw.device.storage), old(st)) ==> Blank(rw.device.storage, st)
    {
      hide Sound, Holds, Clusters, PopBin, Blank, Serves, PVEntriesAllocator.CanGrow;
      k, count := 0, 0;
      KeptSame(rw.device.storage, st);
      PopBinIs(st.bins, size, 0);
      var offset := freelist.PopFreeEntryOffset(size);
      ClustersServeEverySize(st.bins, size);
      if offset != 0 {
        k := PopBin(st.bins, size);
        return Ok(offset), k, count;
      }
      var appended;
      appended, count := AppendClusters();
      if appended.Err? {
        ClustersEnd(old(st), count);
        return Err(appended.error), k, count;
      }
      var _ := freelist.PushFreeEntry(appended.value, clusterSize);
      GrownStep(rw.device.storage, old(st), count);
      if Blank(rw.device.storage, st) {
        BlankHead(rw.device.storage, st, appended.value);
      }
      st := Grown(old(st), count);
      ClustersServeEverySize(st.bins, size);
      offset := freelist.PopFreeEntryOffset(size);
      if offset == 0 {
        return Err(DeviceExpandError), k, count;
      }
      k := PopBin(st.bins, size);
      return Ok(offset), k, count;
    }

    // ------------------------------------------------------- links and split remainders

    /** Makes the successor of a free simple block the head of the class of its size. */
    method RecoverSimple(offset: nat, size: nat)
      requires Base() && (size == SIMPLE4_SIZE || size == SIMPLE8_SIZE) && offset + size <= |rw.device.storage|
      modifies freelist.offsets
      ensures var next := UnpackSimple(rw.device.storage[offset..offset + size]).NextFree();
              freelist.offsets[..] == if next == 0 then old(freelist.offsets[..])
                                      else old(freelist.offsets[..])[BinId(size) := next]
    {
      var image := rw.Read(offset, size);
      var next := UnpackSimple(image.value).NextFree();
      if next == 0 {
        return;
      }
      var _ := freelist.PushFreeEntry(next, size);
    }

    /** The same for a complex block: the size of the successor is read from the successor's own header. */
    method RecoverComplex(offset: nat) returns (ghost j: nat)
      requires Base() && offset + COMPLEX_SIZE <= |rw.device.storage|
      requires var next := UnpackComplex(rw.device.storage[offset..offset + COMPLEX_SIZE]).next;
               next != 0 ==> next + COMPLEX_SIZE <= |rw.device.storage|
      modifies freelist.offsets
      ensures j < BIN_COUNT
      ensures var next := UnpackComplex(rw.device.storage[offset..offset + COMPLEX_SIZE]).next;
              && freelist.offsets[..] == (if next == 0 then old(freelist.offsets[..])
                                          else old(freelist.offsets[..])[j := next])
              && (next != 0 ==>
                    j == BinId((UnpackComplex(rw.device.storage[next..next + COMPLEX_SIZE]).overall + COMPLEX_DATA) % U64))
    {
      j := 0;
      var image := rw.Read(offset, COMPLEX_SIZE);
      var next := UnpackComplex(image.value).next;
      if next == 0 {
        return;
      }
      image := rw.Read(next, COMPLEX_SIZE);
      var nextSize := (UnpackComplex(image.value).overall + COMPLEX_DATA) % U64;
      j := BinId(nextSize);
      var _ := freelist.PushFreeEntry(next, nextSize);
    }

    /** Writes the header of a split remainder and puts it in front of its class; too small a remainder is dropped. */
    method SplitEntries(splitOffset: nat, splitSize: nat) returns (ghost image: seq<byte>)
      requires Base() && forall i | 0 <= i < BIN_COUNT :: freelist.offsets[i] < U64
      requires splitSize >= SIMPLE4_SIZE ==> splitOffset + splitSize + COMPLEX_DATA <= |rw.device.storage|
      requires splitSize < U64
      modifies rw.device, freelist.offsets
      ensures rw.device.Valid()
      ensures splitSize < SIMPLE4_SIZE ==>
                rw.device.storage == old(rw.device.storage) && freelist.offsets[..] == old(freelist.offsets[..])
      ensures splitSize >= SIMPLE4_SIZE ==>
                && freelist.offsets[..] == old(freelist.offsets[..])[BinId(splitSize) := splitOffset]
                && |image| == HeaderSize(Remainder(old(freelist.offsets[..]), splitSize))
                && |image| == (if splitSize > 40 then 40 else if splitSize >= 16 then 16 else 12)
                && FreeImage(image, Remainder(old(freelist.offsets[..]), splitSize))
                && (splitSize > COMPLEX_SIZE ==> |image| == COMPLEX_SIZE && UnpackComplex(image).sequel == 0)
                && rw.device.storage == Splice(old(rw.device.storage), splitOffset, image)
    {
      image := [];
      if splitSize > COMPLEX_SIZE {
        var state: byte := *;
        var next := freelist.GetFreeEntry(splitSize);
        var header := ComplexHeader(EMPTY_COMPLEX, state, 0, 0, splitSize, splitSize, 0, next);
        UnpackPackComplex(header);
        image := header.Pack();
        var _ := rw.Write(splitOffset, header.Pack());
        var _ := freelist.PushFreeEntry(splitOffset, splitSize);
      } else if SIMPLE4_SIZE <= splitSize < SIMPLE8_SIZE {
        image := SplitSimple(splitOffset, splitSize, SIMPLE4_SIZE, EMPTY4);
      } else if splitSize >= SIMPLE8_SIZE {
        image := SplitSimple(splitOffset, splitSize, SIMPLE8_SIZE, EMPTY8);
      }
    }

    /** The simple cases of a split: everything in the header but the type and the link is indeterminate. */
    method SplitSimple(splitOffset: nat, splitSize: nat, size: nat, kind: byte) returns (ghost image: seq<byte>)
      requires Base() && forall i | 0 <= i < BIN_COUNT :: freelist.offsets[i] < U64
      requires size == SIMPLE4_SIZE || size == SIMPLE8_SIZE
      requires splitOffset + size <= |rw.device.storage|
      modifies rw.device, freelist.offsets
      ensures rw.device.Valid() && |image| == size
      ensures freelist.offsets[..] == old(freelist.offsets[..])[BinId(splitSize) := splitOffset]
      ensures UnpackSimple(image).kind == kind
      ensures UnpackSimple(image).NextFree() == old(freelist.offsets[BinId(splitSize)])
      ensures rw.device.storage == Splice(old(rw.device.storage), splitOffset, image)
    {
      var memory := Indeterminate(size);
      var next := freelist.GetFreeEntry(splitSize);
      var header := UnpackSimple(memory).WithNext(next).(kind := kind);
      NextOfLinked(UnpackSimple(memory), next);
      UnpackPackSimple(header);
      image := header.Pack();
      var _ := rw.Write(splitOffset, header.Pack());
      var _ := freelist.PushFreeEntry(splitOffset, splitSize);
    }

    // ----------------------------------------------------------------- taking a block

    /** The state between popping the head of class `k` and restoring the rest of its list. */
    ghost predicate Popped(k: nat)
      reads Repr()
    {
      && Base() && Sound(st) && Holds(rw.device.storage, st)
      && |st.bins| == BIN_COUNT && k < BIN_COUNT && st.bins[k] != 0 && st.bins[k] in st.free
      && freelist.offsets[..] == st.bins[k := 0]
    }

    method FinishSimple(offset: nat, size: nat, ghost k: nat)
      requires Popped(k) && offset == st.bins[k] && size == HeaderSize(st.free[offset])
      requires !st.free[offset].FreeComplex?
      modifies this`st, freelist.offsets
      ensures Valid() && BinId(size) < BIN_COUNT
      ensures LinkBin(old(st), old(st).free[offset], BinId(size)) && st == Detach(old(st), k, BinId(size))
    {
      hide Sound, Holds, Detach, FreeAt;
      HeadOnDevice(rw.device.storage, st, k);
      RecoverSimple(offset, size);
      DetachStep(rw.device.storage, st, k, BinId(size));
      st := Detach(st, k, BinId(size));
    }

    method FinishComplex(offset: nat, ghost k: nat) returns (ghost j: nat)
      requires Popped(k) && offset == st.bins[k] && st.free[offset].FreeComplex?
      modifies this`st, freelist.offsets
      ensures Valid() && j < BIN_COUNT
      ensures LinkBin(old(st), old(st).free[offset], j) && st == Detach(old(st), k, j)
    {
      hide Sound, Holds, Detach, FreeAt, LinkBin, UnpackComplex, UnpackSimple, BinId;
      HeadOnDevice(rw.device.storage, st, k);
      j := RecoverComplex(offset);
      LinkBinOf(rw.device.storage, st, offset, j);
      DetachStep(rw.device.storage, st, k, j);
      st := Detach(st, k, j);
    }

    /** Cutting the complex block that was just taken. */
    method FinishSplit(offset: nat, entry: nat, size: nat)
      requires Valid() && offset in st.used && offset in st.extent && 0 < entry && size < U64
      requires entry + size + COMPLEX_DATA <= st.extent[offset]
      modifies this`st, rw.device, freelist.offsets
      ensures Valid() && st == Cut(old(st), offset, entry, size)
      ensures KeptOld(old(rw.device.storage), rw.device.storage, old(st).extent, st.extent)
      ensures Blank(old(rw.device.storage), old(st)) && BlankBehind(old(rw.device.storage), offset + entry, size) ==>
                Blank(rw.device.storage, st)
    {
      hide Sound, Holds, KeptOld, Splice, Cut, FreeImage, Kept, BinId, Blank, BlankBehind, UnpackComplex;
      SplitFits(rw.device.storage, st, offset);
      ghost var image := SplitEntries(offset + entry, size);
      CutStep(old(rw.device.storage), st, offset, entry, size, image);
      st := Cut(st, offset, entry, size);
    }

    /** Restores the rest of the list whose head was popped, and cuts the block if it is larger than needed. */
    method FinishAllocation(offset: nat, size: nat, ghost k: nat)
      requires Popped(k) && offset == st.bins[k] && PopBin(st.bins, size) == k && 0 < size
      modifies this`st, rw.device, freelist.offsets
      ensures Valid()
      ensures Allocated(old(st), st, size, offset, k)
      ensures KeptOld(old(rw.device.storage), rw.device.storage, old(st).extent, st.extent)
      ensures offset in st.extent && offset in old(st).free
      ensures st.extent[offset] >= HeaderSize(old(st).free[offset]) ==>
                FreeAt(rw.device.storage, offset, old(st).free[offset])
      ensures Lone(old(st)) && Blank(old(rw.device.storage), old(st)) && (size == SIMPLE4_SIZE || size == SIMPLE8_SIZE) ==>
                Blank(rw.device.storage, st)
    {
      hide Sound, Holds, KeptOld, FreeAt, PopBin, LinkBin, Detach, Cut, Allocated, Lone, Blank, BlankBehind, UnpackComplex;
      ghost var grown, bytes := st, rw.device.storage;
      TakenBlock(bytes, st, k);
      var kind := GetEntryType(offset);
      if kind == EMPTY4 {
        FinishSimple(offset, SIMPLE4_SIZE, k);
        BlankTaken(bytes, grown, k, BinId(SIMPLE4_SIZE));
        TakenWhole(bytes, grown, size, k, BinId(SIMPLE4_SIZE));
        return;
      } else if kind == EMPTY8 {
        FinishSimple(offset, SIMPLE8_SIZE, k);
        BlankTaken(bytes, grown, k, BinId(SIMPLE8_SIZE));
        TakenWhole(bytes, grown, size, k, BinId(SIMPLE8_SIZE));
        return;
      }
      var image := rw.Read(offset, COMPLEX_SIZE);
      var header := UnpackComplex(image.value);
      ghost var j := FinishComplex(offset, k);
      BlankTaken(bytes, grown, k, j);
      if size > header.overall {
        TakenWhole(bytes, grown, size, k, j);
        return;
      }
      TakenUsed(grown, k, j);
      BlankRest(bytes, grown, k, size);
      FinishSplit(offset, size, header.overall - size);
      TakenSplit(bytes, rw.device.storage, grown, size, k, j);
    }

    /**
     * Hands out a block for an entry of `size` bytes. `grown` is the state the block was taken from: the old one, or,
     * when no class had a block, the old one with `count` new clusters.
     */
    method GetFreeEntryOffset(size: nat)
      returns (r: Result<nat>, ghost k: nat, ghost count: nat, ghost grown: State)
      requires Valid() && 0 < size
      modifies this`st, this`lists, rw.device, freelist.offsets, allocator
      ensures lists == old(lists)
      ensures Valid()
      ensures r.Ok? ==> k < BIN_COUNT && Allocated(grown, st, size, r.value, k)
      ensures r.Ok? ==> Sound(grown) && GrownFrom(old(st), grown, count)
      ensures r.Ok? && count > 0 ==> |old(st).bins| == BIN_COUNT && PopBin(old(st).bins, size) < 0
      ensures r.Ok? <==> old(HasRoom(size))
      ensures old(CanGrow()) ==> |st.bins| == BIN_COUNT && (CanGrow() || st.bins[10] != 0)
      ensures r.Ok? ==> KeptOld(old(rw.device.storage), rw.device.storage, old(st).extent, st.extent)
      ensures r.Ok? ==> r.value in st.extent && r.value in grown.free
                        && (st.extent[r.value] >= HeaderSize(grown.free[r.value]) ==>
                              FreeAt(rw.device.storage, r.value, grown.free[r.value]))
      ensures r.Err? ==> r.error == UnknownExceptionType && OutOfRoom(rw.device) && st == Clusters(old(st), count)
                         && !HasRoom(size)
      ensures r.Err? ==> Kept(old(rw.device.storage), rw.device.storage, old(st).extent)
      ensures Lone(old(st)) && Blank(old(rw.device.storage), old(st)) && (size == SIMPLE4_SIZE || size == SIMPLE8_SIZE) ==>
                Blank(rw.device.storage, st)
    {
      hide Sound, Holds, Kept, KeptOld, FreeAt, Clusters, Grown, PopBin, Allocated, Lone, Blank, Serves,
           Rounded;
      SoundBasics(st);
      r, k, count := GetFreeOffset(size);
      grown := st;
      if r.Err? {
        return;
      }
      GrowthKeeps(old(rw.device.storage), rw.device.storage, old(st), st, count);
      PoppedIsFree(st, size, k);
      if Lone(old(st)) && count > 0 {
        GrownLone(old(st), count);
      }
      label grownState:
      EndOf(rw.device.storage, st);
      FinishAllocation(r.value, size, k);
      EndOf(rw.device.storage, st);
      AllocatedLeaves(old(st), grown, st, size, r.value, k, count);
      KeptOldTrans(old(rw.device.storage), old@grownState(rw.device.storage), rw.device.storage,
                   old(st).extent, grown.extent, st.extent);
    }

    // ---------------------------------------------------------------- simple entries

    /** Writes the header of a new entry into the block just handed out; its expiry date is indeterminate memory. */
    method PlaceEntry(offset: nat, v: Value, ghost b0: seq<byte>, ghost st0: State)
      requires Valid() && v.Fixed() && v.InRange() && offset != 0
      requires offset in st.used && offset in st.extent && v.HeaderSize() <= st.extent[offset]
      requires offset !in st0.live && offset !in st0.used && st.live == st0.live && st.used == st0.used + {offset}
      requires BlocksKept(b0, rw.device.storage, st0, st, {})
      modifies this`st, rw.device
      ensures Valid() && Stored(st0, st, offset, v) && BlocksKept(b0, rw.device.storage, st0, st, {})
      ensures st.end == old(st).end && (old(FixedOnly()) ==> FixedOnly())
      ensures st.free == old(st).free && st.bins == old(st).bins
    {
      hide Sound, Holds, Kept, BlocksKept, Shaped, Stored, Typed, EntryOf, Splice, UnpackSimple, Blank;
      var size := v.HeaderSize();
      var memory := Indeterminate(size);
      var rest := Indeterminate(if v.Width() == 8 then 0 else 4 - v.Width());
      var header := SimpleHeader(v.Kind(), STATE_EMPTY, UnpackSimple(memory).high,
                                 UnpackSimple(memory).body[..4] + Encode(v.Width(), v.Bits()) + rest);
      NewHeader(v, UnpackSimple(memory), rest);
      ghost var bytes := rw.device.storage;
      PlaceStep(b0, bytes, st0, st, offset, header, v, lists);
      var _ := rw.Write(offset, header.Pack());
      st := Place(st, offset, header);
    }

    /**
     * Stores a fixed-size value in a new entry, exactly if there is room for it. Every other entry stays what and where
     * it was; when there is no room, the volume is what it was except for clusters already appended.
     */
    method CreateSimpleEntry(v: Value) returns (r: Result<nat>)
      requires Valid() && v.Fixed() && v.InRange()
      modifies this`st, this`lists, rw.device, freelist.offsets, allocator
      ensures Valid()
      ensures r.Ok? ==> Stored(old(st), st, r.value, v)
      ensures r.Ok? <==> old(HasRoom(v.HeaderSize()))
      ensures r.Err? ==> st.live == old(st).live && st.used == old(st).used
      ensures r.Err? ==> r.error == UnknownExceptionType && OutOfRoom(rw.device) && !HasRoom(v.HeaderSize())
      ensures BlocksKept(old(rw.device.storage), rw.device.storage, old(st), st, {})
      ensures old(FixedOnly()) ==> FixedOnly() && (r.Ok? ==> lists.lost == old(lists).lost)
      ensures Segregated(old(st)) ==> Segregated(st)
      ensures old(|rw.device.storage|) <= |rw.device.storage|
    {
      hide Sound, Holds, Kept, KeptOld, BlocksKept, FreeAt, Clusters, Grown, GrownFrom, Allocated, Shaped, Stored,
           Typed, EntryOf, Splice, UnpackSimple, Segregated, Blank, Lone, HasRoom, CanGrow;
      if old(FixedOnly()) {
        ShapedLone(st, lists);
      }
      var size := v.HeaderSize();
      ghost var k, count, grown;
      EndOf(rw.device.storage, st);
      r, k, count, grown := GetFreeEntryOffset(size);
      EndOf(rw.device.storage, st);
      if r.Err? {
        FailedGrowth(old(rw.device.storage), rw.device.storage, old(st), count, lists);
        lists := Lose(lists, NewClusters(old(st).end, count));
        return;
      }
      var offset := r.value;
      NewBlock(old(rw.device.storage), rw.device.storage, old(st), grown, st, size, offset, k, count, lists);
      lists := AllocateLists(grown, if count == 0 then lists else lists.(large := NewClusters(old(st).end, count)), k, size);
      ghost var taken := st;
      PlaceEntry(offset, v, old(rw.device.storage), old(st));
      SegregatedSame(taken, st);
      EndOf(rw.device.storage, st);
    }

    /**
     * Stores a value of any type in a new entry and returns where it can be read. Long values read back unless they are
     * empty or longer than the format allows. All other entries keep their bytes.
     */
    method CreateNewEntryValue(v: Value) returns (r: Result<nat>)
      requires Valid() && v.InRange() && (!v.Fixed() ==> |v.bytes| + COMPLEX_SIZE < U64 && Storable(|v.bytes|))
      modifies this`st, this`lists, rw.device, freelist.offsets, allocator
      ensures Valid() && BlocksKept(old(rw.device.storage), rw.device.storage, old(st), st, {})
      ensures v.Fixed() && r.Ok? ==> Stored(old(st), st, r.value, v)
      ensures r.Err? || !v.Fixed() ==> st.live == old(st).live
      ensures r.Ok? ==>
                var data := if v.Fixed() then [] else v.bytes;
                && Readable(rw.device.storage, r.value, data)
                && Content(rw.device.storage, r.value, data)
                   == if v.Fixed() || 0 < |v.bytes| <= MAXIMUM_TYPE_SIZE then Ok(v) else Err(CorruptedHeaderError)
      ensures r.Err? ==> r.error == UnknownExceptionType && OutOfRoom(rw.device)
      ensures r.Err? && !v.Fixed() ==>
                exists blocks, spare, written :: Stuck(v.bytes, blocks, spare, written, v.Kind(), old(st).used)
      ensures !old(HasRoom(if v.Fixed() then v.HeaderSize() else |v.bytes| + COMPLEX_SIZE)) ==> r.Err?
      ensures old(if v.Fixed() then HasRoom(v.HeaderSize()) else Roomy(|v.bytes|)) ==> r.Ok?
    {
      hide Sound, Holds, BlocksKept, Shaped, Stored, Typed, EntryOf, Segregated, Readable, Content, Writing, Admits;
      if v.Fixed() {
        r := CreateSimpleEntry(v);
        if r.Ok? {
          StoredReads(old(st), st, r.value, v);
          LiveReadable(r.value);
        }
      } else {
        ghost var blocks, spare, written;
        r, blocks, spare, written := WriteComplexType(v.Kind(), v.bytes);
        if r.Ok? && v.bytes != [] {
          WrittenReadsBack(rw.device.storage, st, blocks, v.bytes, spare, v.Kind(), old(st).used);
        }
      }
    }

    /** Reads the value of an entry; types that no entry has are reported as a corrupted header. */
    method GetEntryContent(offset: nat, ghost data: seq<byte>) returns (r: Result<Value>)
      requires rw.clusterSize == CLUSTER_SIZE && Readable(rw.device.storage, offset, data)
      ensures r == Content(rw.device.storage, offset, data)
    {
      var kind := GetEntryType(offset);
      if kind > BLOB {
        return Err(CorruptedHeaderError);
      }
      if kind == STRING || kind == BLOB {
        var complex := rw.ReadComplexType(offset, data);
        if complex.Err? {
          return Err(complex.error);
        }
        return Ok(if kind == STRING then Str(complex.value) else Blob(complex.value));
      }
      var image := rw.Read(offset, SizeOfKind(kind));
      return Ok(ValueOf(kind, UnpackSimple(image.value).Word()).value);
    }

    method GetEntryExpiredDate(offset: nat) returns (r: Option<Time>)
      requires Valid() && offset in st.live && Typed(st.live[offset])
      ensures r == EntryOf(st.live[offset]).expiry
    {
      hide Sound;
      LiveOnDevice(rw.device.storage, st, offset);
      var kind := GetEntryType(offset);
      var image := rw.Read(offset, SizeOfKind(kind));
      var header := UnpackSimple(image.value);
      if !HasExpiry(header.state) {
        return None;
      }
      return Some(Time(header.high, header.Low()));
    }

    /** Sets the expiry date of a simple entry; its value and every other block stay as they are. */
    method SetEntryExpiredDate(offset: nat, expired: Time)
      requires Valid() && offset in st.live && Typed(st.live[offset]) && expired.Valid()
      modifies this`st, rw.device
      ensures Valid() && Dated(old(st), st, offset, expired) && st.bins == old(st).bins
      ensures old(FixedOnly()) ==> FixedOnly()
      ensures BlocksKept(old(rw.device.storage), rw.device.storage, old(st), st, {offset})
      ensures |rw.device.storage| == |old(rw.device.storage)|
    {
      hide Sound, Holds, BlocksKept, Shaped, Dated, Update, Typed, EntryOf, Readable, Content, Splice, UnpackSimple, Blank;
      LiveOnDevice(rw.device.storage, st, offset);
      var kind := GetEntryType(offset);
      var image := rw.Read(offset, SizeOfKind(kind));
      var header := UnpackSimple(image.value).WithExpiry(expired.high, expired.low);
      UpdateStep(rw.device.storage, st, offset, expired, lists);
      var _ := rw.Write(offset, header.Pack());
      st := Update(st, offset, header);
    }

    /** Turns a simple entry into the head of the free list of its size, which then has room for another one. */
    method DeleteEntry(offset: nat)
      requires Valid() && offset in st.live && Typed(st.live[offset])
      modifies this`st, this`lists, rw.device, freelist.offsets
      ensures Valid() && Deleted(old(st), st, offset)
      ensures HasRoom(SizeOfKind(old(st).live[offset].kind))
      ensures forall size :: old(HasRoom(size)) ==> HasRoom(size)
      ensures old(FixedOnly()) ==> FixedOnly()
      ensures lists.lost == old(lists).lost
      ensures Segregated(old(st)) ==> Segregated(st)
      ensures BlocksKept(old(rw.device.storage), rw.device.storage, old(st), st, {offset})
      ensures |rw.device.storage| == |old(rw.device.storage)|
    {
      hide Sound, Holds, BlocksKept, Shaped, Release, Released, Deleted, Typed, EntryOf, Readable, Content, Splice,
           UnpackSimple, Segregated, Blank;
      LiveOnDevice(rw.device.storage, st, offset);
      var kind := GetEntryType(offset);
      var size := SizeOfKind(kind);
      var image := rw.Read(offset, size);
      var next := freelist.GetFreeEntry(size);
      var header := UnpackSimple(image.value).(kind := if size == SIMPLE4_SIZE then EMPTY4 else EMPTY8,
                                               state := STATE_EMPTY);
      header := header.WithNext(next);
      ReleasedServes(st, offset);
      ReleaseImage(rw.device.storage, st, offset, header);
      ReleaseStep(st, offset, lists);
      var _ := rw.Write(offset, header.Pack());
      var _ := freelist.PushFreeEntry(offset, size);
      st := Release(st, offset);
      lists := Released(lists, offset, size);
    }

    // --------------------------------------------------------------- complex entries

    /** Would one block take a value of `length` bytes, and is there room for that block and another one? */
    ghost predicate Roomy(length: nat)
      reads this`st, allocator, rw.device
    { CanGrow() && (length == 0 || Admits(st, length)) }

    /** Block `o` takes a value of `length` bytes, and there is room for another block. */
    ghost predicate TakesAll(o: nat, length: nat)
      reads this`st, allocator, rw.device
    {
      HasRoom(length + COMPLEX_SIZE)
      && (length != 0 ==> o + COMPLEX_SIZE <= |rw.device.storage| && length <= ChunkSize(rw.device.storage, o))
    }

    /**
     * A writer is stuck: it has put `written` bytes of the value into `blocks`, if it has got any block at all, and there
     * is no room for a block that is to take the rest.
     */
    ghost predicate Stuck(data: seq<byte>, blocks: seq<nat>, spare: nat, written: nat, kind: byte, before: set<nat>)
      reads this`st, allocator, rw.device
    {
      && written <= |data| && !HasRoom(|data| - written + COMPLEX_SIZE)
      && ((blocks == [] && written == 0 && st.used == before)
          || Writing(rw.device.storage, st, blocks, data, spare, written, kind, before))
    }

    /**
     * Hands out a block for the next chunk of a complex value of which `rest` bytes remain. While the lists are segregated,
     * a rest of more than 24 bytes gets a complex block that takes all of it or is used up. Otherwise the block suits if
     * it is one that takes all of the rest. The first block of a value may also be a simple one.
     */
    method GetChunkOffset(rest: nat) returns (r: Result<nat>)
      requires Valid()
      modifies this`st, this`lists, rw.device, freelist.offsets, allocator
      ensures Valid() && st.live == old(st).live
      ensures BlocksKept(old(rw.device.storage), rw.device.storage, old(st), st, {})
      ensures r.Err? ==> st.used == old(st).used && r.error == UnknownExceptionType && OutOfRoom(rw.device)
      ensures r.Ok? <==> old(HasRoom(rest + COMPLEX_SIZE))
      ensures r.Err? ==> !HasRoom(rest + COMPLEX_SIZE)
      ensures old(Roomy(rest)) ==> r.Ok? && TakesAll(r.value, rest)
      ensures r.Ok? ==> st.used == old(st).used + {r.value} && r.value !in old(st).used && r.value in st.extent
                        && COMPLEX_SIZE <= st.extent[r.value] && r.value + COMPLEX_SIZE <= |rw.device.storage|
                        && BLOB < rw.device.storage[r.value]
      ensures old(|rw.device.storage|) <= |rw.device.storage|
      ensures r.Ok? && 0 < rest && Supplied(old(st), rest) ==> Suits(rw.device.storage, st, r.value, rest)
      ensures r.Ok? && 0 < rest && old(Storable(rest)) ==> InHand(rw.device.storage, st, r.value, rest, true)
      ensures r.Ok? && 24 < rest ==> KeptApart(old(st), rw.device.storage, st, r.value, rest)
    {
      hide Sound, Holds, Kept, KeptOld, BlocksKept, FreeAt, Clusters, GrownFrom, Allocated, Shaped, Ready, Admits,
           PopBin, Segregated, Suits, InHand, ShortFits, SimpleTwo, LeftOver, KeptApart, Serves, CanGrow;
      ghost var k, count, grown;
      SoundBasics(st);
      EndOf(rw.device.storage, st);
      r, k, count, grown := GetFreeEntryOffset(rest + COMPLEX_SIZE);
      EndOf(rw.device.storage, st);
      if r.Err? {
        FailedGrowth(old(rw.device.storage), rw.device.storage, old(st), count, lists);
        return;
      }
      NewBlock(old(rw.device.storage), rw.device.storage, old(st), grown, st, rest + COMPLEX_SIZE, r.value, k, count, lists);
      NewChunk(rw.device.storage, old(st), grown, st, rest, r.value, k, count);
      if 0 < rest {
        ChunkInHand(old(rw.device.storage), rw.device.storage, old(st), grown, st, rest, r.value, k, count);
      }
      if 24 < rest {
        ApartStep(old(st), grown, rw.device.storage, st, rest, r.value, k, count);
      }
      if st.bins[10] != 0 {
        ClusterServes(st.bins, rest + COMPLEX_SIZE);
      }
    }

    /** Can a value of `length` bytes be stored as a chain? */
    ghost predicate Storable(length: nat)
      reads this, rw.device
    {
      length == 0 || Admits(st, length) || (Segregated(st) && (24 < length || ShortFits(rw.device.storage, st, length)))
    }

    /** A volume of fixed-size values can store a value of any length. */
    lemma FixedStorable(length: nat)
      requires Valid() && FixedOnly() && Segregated(st)
      ensures Storable(length)
    {
      hide Sound, Holds, Shaped, Segregated, ChunkSize;
      HeadTwoIsWide(st);
    }

    /**
     * Stores a long value as a chain of chunks. Each chunk is written once the block for the next one is known, so
     * one block more than the value needs is taken, and it is never given back: `spare`. An empty value gets a block but
     * no header, and cannot be read. It fails only where there is no room for the block that is asked for next, so it does
     * if there is none for the first one; and it does not if one block takes the whole value and the volume can grow.
     */
    method WriteComplexType(kind: byte, data: seq<byte>)
      returns (r: Result<nat>, ghost blocks: seq<nat>, ghost spare: nat, ghost written: nat)
      requires Valid() && |data| + COMPLEX_SIZE < U64 && Storable(|data|)
      modifies this`st, this`lists, rw.device, freelist.offsets, allocator
      ensures Valid() && st.live == old(st).live
      ensures BlocksKept(old(rw.device.storage), rw.device.storage, old(st), st, {})
      ensures old(|rw.device.storage|) <= |rw.device.storage|
      ensures r.Ok? && data != [] ==>
                blocks != [] && r.value == blocks[0]
                && Writing(rw.device.storage, st, blocks, data, spare, |data|, kind, old(st).used)
      ensures r.Ok? && data == [] ==>
                && Readable(rw.device.storage, r.value, data)
                && Content(rw.device.storage, r.value, data) == Err(CorruptedHeaderError)
      ensures r.Err? ==> r.error == UnknownExceptionType && OutOfRoom(rw.device)
      ensures r.Err? ==> Stuck(data, blocks, spare, written, kind, old(st).used)
      ensures !old(HasRoom(|data| + COMPLEX_SIZE)) ==> r.Err?
      ensures old(Roomy(|data|)) ==> r.Ok?
      ensures r.Ok? && KeepsApart(old(st), |data|) ==> Segregated(st)
    {
      hide Sound, Holds, BlocksKept, Shaped, Ready, Writing, ChunkSize, ChunkWritten, Suits, InHand, Supplied, Storable,
           Content, Readable, Segregated, Admits, LeftOver, KeptApart, KeepsApart, AllInFirst, HasRoom, Roomy;
      blocks, spare, written := [], 0, 0;
      var dataSize := |data|;
      var first := GetChunkOffset(dataSize);
      if first.Err? {
        return Err(first.error), blocks, spare, written;
      }
      var freeOffset := first.value;
      spare := freeOffset;
      WritingStarts(rw.device.storage, st, data, freeOffset, kind, old(st).used);

      if 24 < dataSize {
        ApartStarts(old(st), rw.device.storage, st, freeOffset, dataSize);
      }
      ApartIsLong(old(st), dataSize);

      var isFirst := true;
      var overallWritten := 0;
      while overallWritten < dataSize
        invariant Valid() && st.live == old(st).live && overallWritten <= dataSize
        invariant old(|rw.device.storage|) <= |rw.device.storage|
        invariant BlocksKept(old(rw.device.storage), rw.device.storage, old(st), st, {})
        invariant spare == freeOffset && isFirst == (blocks == []) && old(st).used <= st.used
        invariant isFirst ==> overallWritten == 0
        invariant if blocks == [] then freeOffset == first.value else blocks[0] == first.value
        invariant Writing(rw.device.storage, st, blocks, data, freeOffset, overallWritten, kind, old(st).used)
        invariant dataSize == 0 ==> first.value + 2 <= |rw.device.storage| && BLOB < rw.device.storage[first.value]
        invariant overallWritten < dataSize ==>
                    InHand(rw.device.storage, st, freeOffset, dataSize - overallWritten, isFirst)
        invariant old(Roomy(dataSize)) && overallWritten < dataSize ==> isFirst && TakesAll(freeOffset, dataSize)
        invariant KeepsApart(old(st), dataSize) ==>
                    Segregated(st) && (overallWritten < dataSize ==>
                                         isFirst && AllInFirst(rw.device.storage, st, freeOffset, dataSize))
        decreases dataSize - overallWritten, if isFirst then 1 else 0
      {
        var rest := dataSize - overallWritten;
        ghost var b0, st0 := rw.device.storage, st;
        HandReady(b0, st0, freeOffset, rest, isFirst);
        var next := GetChunkOffset(rest);
        BlocksKeptTrans(old(rw.device.storage), b0, rw.device.storage, old(st), st0, st);
        if next.Err? {
          WritingStays(b0, rw.device.storage, st0, st, blocks, data, spare, overallWritten, kind, old(st).used);
          return Err(next.error), blocks, spare, overallWritten;
        }
        ChunkStep(old(rw.device.storage), b0, rw.device.storage, old(st), st0, st, blocks, data, freeOffset,
                  overallWritten, kind, next.value);
        if KeepsApart(old(st), dataSize) {
          ApartEnds(b0, st0, freeOffset, rw.device.storage, st, next.value, dataSize);
        }
        var chunk := rw.WriteComplexType(freeOffset, kind, isFirst, next.value, data[overallWritten..]);
        isFirst := false;
        blocks := blocks + [freeOffset];
        freeOffset := next.value;
        spare := freeOffset;
        overallWritten := overallWritten + chunk.value;
        if overallWritten < dataSize {
          SuitsInHand(rw.device.storage, st, freeOffset, dataSize - overallWritten, isFirst);
        }
      }
      if dataSize == 0 {
        EmptyUnreadable(rw.device.storage, first.value);
      } else {
        WritingNotEmpty(rw.device.storage, st, blocks, data, freeOffset, kind, old(st).used);
      }
      return Ok(first.value), blocks, spare, dataSize;
    }

    /** Reads the expiry date of a long value from its first header. */
    method GetLongExpiredDate(offset: nat) returns (r: Option<Time>)
      requires offset + COMPLEX_SIZE <= |rw.device.storage|
      ensures r == LongDate(rw.device.storage, offset)
    {
      var image := rw.Read(offset, COMPLEX_SIZE);
      var header := UnpackComplex(image.value);
      if !HasExpiry(header.state) {
        return None;
      }
      return Some(Time(header.high, header.low));
    }

    /**
     * Sets the expiry date of a long value. The date can be read, but the mark by which the reader knows the first chunk
     * is gone: the value cannot be read any more. Nothing else changes.
     */
    method SetLongExpiredDate(offset: nat, expired: Time, ghost blocks: seq<nat>, ghost data: seq<byte>,
                              ghost spare: nat, ghost kind: byte)
      requires Valid() && LongAt(rw.device.storage, st, blocks, data, spare, kind) && expired.Valid()
      requires blocks != [] && offset == blocks[0] && (kind == STRING || kind == BLOB)
      modifies rw.device
      ensures Valid() && Kept(old(rw.device.storage), rw.device.storage, st.extent - {offset})
      ensures offset + COMPLEX_SIZE <= |rw.device.storage| && LongDate(rw.device.storage, offset) == Some(expired)
      ensures Readable(rw.device.storage, offset, data)
      ensures Content(rw.device.storage, offset, data) == Err(CorruptedHeaderError)
    {
      hide Sound, Holds, LongAt, Kept, UnpackComplex, Splice, Readable, Content, LongDate;
      LongDated(rw.device.storage, st, blocks, data, spare, kind, expired);
      var image := rw.Read(offset, COMPLEX_SIZE);
      var header := UnpackComplex(image.value).(state := IS_EXPIRED, high := expired.high, low := expired.low);
      var _ := rw.Write(offset, header.Pack());
    }

    /** Marks one chunk as free and puts it in front of a class. */
    method FreeChunk(offset: nat) returns (header: ComplexHeader)
      requires Base() && offset + COMPLEX_SIZE <= |rw.device.storage|
      modifies rw.device, freelist.offsets
      ensures rw.device.Valid()
      ensures header == UnpackComplex(old(rw.device.storage)[offset..offset + COMPLEX_SIZE])
      ensures rw.device.storage == FreeChunkAt(old(rw.device.storage), offset, old(freelist.offsets[BinId(header.chunk)]))
      ensures freelist.offsets[..] == old(freelist.offsets[..])[ClassOfFreed(header.chunk) := offset]
    {
      var image := rw.Read(offset, COMPLEX_SIZE);
      header := UnpackComplex(image.value);
      var next := freelist.GetFreeEntry(header.chunk);
      var freed := header.(kind := EMPTY_COMPLEX, state := COMPLEX_BEGIN, overall := header.chunk, next := next);
      var _ := rw.Write(offset, freed.Pack());
      var _ := freelist.PushFreeEntry(offset, (header.chunk + COMPLEX_DATA) % U64);
    }

    /**
     * Deletes a long value. The loop over the further chunks is left after its first round, so the value is freed as a
     * whole exactly if it has at most two chunks. Whether the volume stays intact, with no block referred to twice,
     * depends on the heads of the classes and the sizes of these chunks, and so does whether all free blocks stay in
     * some list. The bytes of all other blocks stay as they are.
     */
    method DeleteComplexEntry(offset: nat, ghost blocks: seq<nat>, ghost data: seq<byte>, ghost spare: nat,
                              ghost kind: byte)
      requires Valid() && LongAt(rw.device.storage, st, blocks, data, spare, kind)
      requires blocks != [] && offset == blocks[0] && (kind == STRING || kind == BLOB)
      modifies this`st, rw.device, freelist.offsets
      ensures Base() && Holds(rw.device.storage, st) && freelist.offsets[..] == st.bins
      ensures |rw.device.storage| == old(|rw.device.storage|)
      ensures ChunkSizes(FirstSizes(old(rw.device.storage), blocks)) && |old(st).bins| == BIN_COUNT
      ensures st == ValueFreed(old(st), blocks, FirstSizes(old(rw.device.storage), blocks))
      ensures Valid() <==> StaysApart(old(st).bins, FirstSizes(old(rw.device.storage), blocks))
      ensures NothingLost(old(st), st) <==> KeepsAll(old(st).bins, FirstSizes(old(rw.device.storage), blocks))
      ensures FirstTwoFreed(rw.device.storage, blocks, kind)
      ensures AllFreed(rw.device.storage, blocks) <==> |blocks| <= 2
      ensures Kept(old(rw.device.storage), rw.device.storage, st.extent - FirstBlocks(blocks))
      ensures BlocksKept(old(rw.device.storage), rw.device.storage, old(st), st, FirstBlocks(blocks))
    {
      hide Sound, Holds, LongAt, FirstTwoFreed, AllFreed, Kept, BlocksKept, FreeChunkAt, UnpackComplex, ClassOfFreed, BinId,
           StaysApart, KeepsAll, NothingLost, Built, ChunkSizes;
      ghost var bytes, st0, sizes := rw.device.storage, st, FirstSizes(rw.device.storage, blocks);
      SoundParts(bytes, st);
      FirstSizesFit(bytes, st, blocks, data, spare, kind);
      LongFollows(bytes, st, blocks, data, spare, kind);
      IntactExactly(st, blocks, sizes);
      KeptExactly(st, blocks, sizes);
      OneFreed(bytes, st, blocks, data, spare, kind);
      var header := FreeChunk(offset);
      st := ChunkFreed(st, offset, sizes[0]);
      var next := header.sequel;
      var alreadyDeleted := header.chunk;
      // the loop of the library, whose body ends with a return
      if alreadyDeleted < header.overall && next != 0 {
        TwoFreed(bytes, rw.device.storage, st0, st, blocks, data, spare, kind);
        var _ := FreeChunk(next);
        st := ChunkFreed(st, next, sizes[1]);
      }
      FreedExactlyUpToTwo(rw.device.storage, blocks, kind);
      OthersInUse(bytes, rw.device.storage, st0, st, FirstBlocks(blocks));
    }
  }
}
