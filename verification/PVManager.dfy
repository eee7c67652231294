/** One physical volume as a key-value store: the index, the entries, and expiry dates on top of both. */
module PVManager {
  import opened Bytes
  import opened Errors
  import opened Layout
  import opened Freelist
  import opened Blocks
  import opened Image
  import opened Shape
  import opened Conservation
  import opened Device
  import opened EntriesAllocator
  import opened Chains
  import opened Time
  import opened Values
  import opened Versions
  import opened VolumeHeader
  import opened FreedChunks
  import opened LongDeletion
  import opened Segregation
  import opened EntrySteps
  import opened EntriesManager
  import opened IndexFormat
  import opened IndexProperties
  import opened IndexReading
  import opened InvertedIndex
  import AhoCorasick
  import opened VolumeMap
  import opened StoredIndex

  /** No index of a volume comes near this number of nodes: its serialized form would not fit any memory. */
  const MAXIMUM_NODES: nat := U64 / 50 - 2

  /** What no operation but closing changes. */
  datatype StoredPart = StoredPart(indexOffset: nat, blob: IndexBlob, sizes: seq<nat>, priority: int)

  class PVManager {
    const index: InvertedIndexHelper
    const entries: PVEntriesManager
    const version: Version
    /** Where the index was stored when the volume was last closed, or 0. */
    var indexOffset: nat
    /** The blob at `indexOffset`. */
    ghost var blob: IndexBlob
    /** Entries that were stored under the empty key. */
    ghost var stranded: set<nat>

    constructor (index: InvertedIndexHelper, entries: PVEntriesManager, version: Version, indexOffset: nat,
                 ghost blob: IndexBlob, ghost stranded: set<nat>)
      requires index.Valid() && index.engine.none == NO_ID && entries.Valid() && entries.version == version
      requires entries !in index.Repr() && entries.rw.device !in index.Repr()
      requires entries.freelist.offsets !in index.Repr() && entries.allocator !in index.Repr()
      requires Consistent(index.Leafs(), entries.st.live, stranded)
      requires Restorable(entries.rw.device.storage, entries.st, blob, indexOffset, version, index.Leafs(), index.isChanged)
      ensures Valid() && this.index == index && this.entries == entries && this.version == version
      ensures this.indexOffset == indexOffset && this.blob == blob && this.stranded == stranded
      ensures Map() == Entries(index.Leafs(), entries.st.live, stranded)
    {
      hide Sound, Holds, InvertedIndexHelper.Valid, Consistent, Entries, Restorable, LeafsOf,
           InvertedIndexHelper.Leafs, InvertedIndexHelper.Paths;
      this.index, this.entries, this.version := index, entries, version;
      this.indexOffset, this.blob, this.stranded := indexOffset, blob, stranded;
    }

    ghost function Repr(): set<object>
      reads index, index.engine
    { {this} + entries.Repr() + index.Repr() }

    /** The index shares nothing with the rest of the manager. */
    ghost predicate Apart(indexRepr: set<object>) {
      && this !in indexRepr && entries !in indexRepr && entries.rw.device !in indexRepr
      && entries.freelist.offsets !in indexRepr && entries.allocator !in indexRepr
    }

    ghost predicate Valid()
      reads this, index, index.engine, Repr()
    {
      && Apart(index.Repr())
      && index.Valid() && index.engine.none == NO_ID && entries.Valid() && entries.version == version
      && Consistent(index.Leafs(), entries.st.live, stranded)
      && Restorable(entries.rw.device.storage, entries.st, blob, indexOffset, version, index.Leafs(), index.isChanged)
    }

    /** The keys with their values and expiry dates. */
    ghost function Map(): map<Key, Entry>
      requires Valid()
      reads this, index, index.engine, Repr()
    { Entries(index.Leafs(), entries.st.live, stranded) }

    /** Do the free lists have the shape of a volume that has only ever held fixed-size values? */
    ghost predicate FixedOnly()
      reads entries, entries.rw.device
    { entries.FixedOnly() }

    /** Are the free lists such that long values can be stored? */
    ghost predicate Segregates()
      reads entries
    { Segregated(entries.st) }

    /** The index as it was stored last, the sizes of its first chunks, and the priority of the volume. */
    ghost function LastStored(): StoredPart
      reads this, entries, entries.rw.device
    { StoredPart(indexOffset, blob, StoredSizes(entries.rw.device.storage, blob, indexOffset), entries.priority) }

    /** Blocks that are neither entries nor in a list: clusters of failed growths, and chunks of long values. */
    ghost function Unlisted(): set<nat>
      reads entries
    { entries.lists.lost + entries.st.used }

    /** Can the volume not grow any more? */
    ghost predicate Full()
      reads entries.rw.device
    { OutOfRoom(entries.rw.device) }

    /** Is there room for a header of `size` bytes: a free block for it, or enough space on the device to grow? */
    ghost predicate HasRoom(size: nat)
      reads entries, entries.allocator, entries.rw.device
    { entries.HasRoom(size) }

    /**
     * Nothing is lost and nothing is shared: each byte behind the headers belongs to exactly one block, which either is
     * the entry of one key, or one stored under the empty key, or is in exactly one list of free blocks. A free complex
     * block owns just the size in its header and 32 bytes.
     */
    lemma EveryByteAccounted(b: nat) returns (o: nat)
      requires Valid() && FixedOnly() && Unlisted() == {} && DATA_START <= b < |entries.rw.device.storage|
      ensures Owns(entries.st.extent, o, b) && forall p | Owns(entries.st.extent, p, b) :: p == o
      ensures o in entries.st.live <==> ListsWith(entries.lists, o) == 0
      ensures o in entries.st.free <==> ListsWith(entries.lists, o) == 1
      ensures o in entries.st.free && entries.st.free[o].FreeComplex? ==>
                entries.st.extent[o] == entries.st.free[o].size + COMPLEX_DATA
      ensures o in entries.st.live ==> o in stranded || exists k :: k in index.Leafs() && index.Leafs()[k] == o
    {
      hide Sound, Holds, Consistent, LeafsOf, Restorable, InvertedIndexHelper.Valid, Shaped;
      EndOf(entries.rw.device.storage, entries.st);
      EveryByteOwned(entries.st, b);
      o :| Owns(entries.st.extent, o, b);
      OneRole(entries.st, o);
      FreeMeansListed(entries.st, entries.lists, o);
      LiveIsIndexed(index.Leafs(), entries.st.live, stranded, o);
      if o in entries.st.free && entries.st.free[o].FreeComplex? {
        ExactBlock(entries.st, entries.lists, o);
      }
    }

    lemma Parts()
      ensures this in Repr() && index in Repr() && index.engine in Repr() && entries in Repr()
      ensures entries.rw.device in Repr() && index.Repr() <= Repr()
    {
    }

    /** The index has a leaf for every key. */
    lemma LeafPerKey()
      requires Valid()
      ensures |index.Leafs()| == |Map()|
    {
      assert Map().Keys == index.Leafs().Keys;
    }

    /** Stored expiry dates fit their fields. */
    lemma DatesAreValid(key: Key)
      requires Valid()
      ensures key in Map() && Map()[key].expiry.Some? ==> Map()[key].expiry.value.Valid()
    {
      hide Sound, Holds, LeafsOf, Restorable, InvertedIndexHelper.Valid, Typed, EntryOf;
      EntryOfKey(index.Leafs(), entries.st.live, stranded, key);
      if key in Map() {
        ExpiryIsValid(entries.st.live[index.Leafs()[key]]);
      }
    }

    lemma RootIsPath()
      requires Valid()
      ensures [] in index.Paths()
    {
      index.PathsClosed();
    }

    // ------------------------------------------------------------------ operations

    /**
     * Stores a value under a new key. A key that is present is refused even if its entry has expired, as long as no
     * access has purged it. Apart from that the operation fails exactly if there is no room for the header of the value.
     */
    method Put(key: Key, value: Value) returns (r: StorageError)
      requires Valid() && value.Fixed() && value.InRange()
      modifies Repr()
      ensures Valid() && forall o | o in index.Repr() :: o in old(index.Repr()) || fresh(o)
      ensures r == KeyAlreadyCreated <==> key in old(Map())
      ensures r == UnknownExceptionType <==> key !in old(Map()) && !old(HasRoom(value.HeaderSize()))
      ensures r == Success || r == KeyAlreadyCreated || (r == UnknownExceptionType && Full())
      ensures r == UnknownExceptionType ==> !HasRoom(value.HeaderSize())
      ensures r == KeyAlreadyCreated ==> forall size :: HasRoom(size) == old(HasRoom(size))
      ensures old(|entries.rw.device.storage|) <= |entries.rw.device.storage|
      ensures Map() == if r == Success && key != [] then old(Map())[key := Entry(value, None)] else old(Map())
      ensures stranded == old(stranded) <==> r != Success || key != []
      ensures old(FixedOnly()) ==> FixedOnly() && (r != UnknownExceptionType ==> Unlisted() == old(Unlisted()))
      ensures LastStored() == old(LastStored()) && (old(Segregates()) ==> Segregates())
      ensures index.Paths() == if r == Success then old(index.Paths()) + AhoCorasick.Prefixes(key) else old(index.Paths())
      ensures index.isChanged == (old(index.isChanged) || (r == Success && key != []))
    {
      hide PVEntriesManager.Valid, InvertedIndexHelper.Valid, PVEntriesManager.FixedOnly, Consistent, Entries,
           Restorable, Stored, BlocksKept, Sound, Holds, LeafsOf, InvertedIndexHelper.Repr,
           InvertedIndexHelper.Leafs, InvertedIndexHelper.Paths, Value.InRange, Value.Fixed, OutOfRoom, StoredSizes,
           Segregated, AhoCorasick.Prefixes, PVEntriesManager.HasRoom;
      EntryOfKey(index.Leafs(), entries.st.live, stranded, key);
      var has := index.HasKey(key);
      if has {
        return KeyAlreadyCreated;
      }
      r := PutNew(key, value);
    }

    /** Stores a value under a key that is not present. */
    method PutNew(key: Key, value: Value) returns (r: StorageError)
      requires Valid() && value.Fixed() && value.InRange() && key !in index.Leafs()
      modifies Repr()
      ensures Valid() && forall o | o in index.Repr() :: o in old(index.Repr()) || fresh(o)
      ensures r == if old(HasRoom(value.HeaderSize())) then Success else UnknownExceptionType
      ensures r == UnknownExceptionType ==> Full() && !HasRoom(value.HeaderSize())
      ensures old(|entries.rw.device.storage|) <= |entries.rw.device.storage|
      ensures Map() == if r == Success && key != [] then old(Map())[key := Entry(value, None)] else old(Map())
      ensures stranded == old(stranded) <==> r != Success || key != []
      ensures old(FixedOnly()) ==> FixedOnly() && (r != UnknownExceptionType ==> Unlisted() == old(Unlisted()))
      ensures LastStored() == old(LastStored()) && (old(Segregates()) ==> Segregates())
      ensures index.Paths() == if r == Success then old(index.Paths()) + AhoCorasick.Prefixes(key) else old(index.Paths())
      ensures index.isChanged == (old(index.isChanged) || (r == Success && key != []))
    {
      hide PVEntriesManager.Valid, InvertedIndexHelper.Valid, PVEntriesManager.FixedOnly, Consistent, Entries,
           Restorable, Stored, BlocksKept, Sound, Holds, LeafsOf, InvertedIndexHelper.Repr,
           InvertedIndexHelper.Leafs, InvertedIndexHelper.Paths, Value.InRange, Value.Fixed, OutOfRoom, StoredSizes,
           Segregated, AhoCorasick.Prefixes, PVEntriesManager.HasRoom, Value.HeaderSize, Typed, EntryOf, Shaped,
           PVEntriesManager.CanGrow;
      ghost var leafs, st, bytes := index.Leafs(), entries.st, entries.rw.device.storage;
      var offset := entries.CreateSimpleEntry(value);
      if offset.Err? {
        StillRestorable(bytes, entries.rw.device.storage, st, entries.st, {}, blob, indexOffset, version, leafs,
                        index.isChanged);
        return offset.error;
      }
      PutStep(bytes, entries.rw.device.storage, st, entries.st, leafs, stranded, key, offset.value, value, blob,
              indexOffset, version, index.isChanged);
      entries.LiveOffset(offset.value);
      stranded := if key == [] then stranded + {offset.value} else stranded;
      var _ := index.Insert(key, offset.value);
      return Success;
    }

    /** Is the expiry date of the entry, if it has one, below the clock? */
    method IsEntryExpired(offset: nat, now: int) returns (expired: bool)
      requires entries.Valid() && offset in entries.st.live && Typed(entries.st.live[offset]) && IsTimeT(now)
      ensures expired <==> Expired(EntryOf(entries.st.live[offset]), now)
    {
      var date := entries.GetEntryExpiredDate(offset);
      return date.Some? && date.value.Less(FromTimeT(now));
    }

    /** Deletes an entry, and then its key. */
    method Remove(key: Key, offset: nat)
      requires Valid() && key in index.Leafs() && offset == index.Leafs()[key]
      modifies Repr()
      ensures Valid() && index.Repr() == old(index.Repr())
      ensures Map() == old(Map()) - {key} && stranded == old(stranded)
      ensures forall size :: old(HasRoom(size)) ==> HasRoom(size)
      ensures key in old(Map()) && key !in Map() ==>
                old(Map())[key].value.Fixed() && HasRoom(old(Map())[key].value.HeaderSize())
      ensures old(FixedOnly()) ==> FixedOnly()
      ensures Unlisted() == old(Unlisted())
      ensures LastStored() == old(LastStored()) && (old(Segregates()) ==> Segregates())
      ensures |entries.rw.device.storage| == old(|entries.rw.device.storage|)
      ensures index.Paths() == old(index.Paths()) && index.isChanged
    {
      hide PVEntriesManager.Valid, InvertedIndexHelper.Valid, PVEntriesManager.FixedOnly, Consistent, Entries,
           Restorable, Deleted, Dated, BlocksKept, Sound, Holds, LeafsOf, InvertedIndexHelper.Repr,
           InvertedIndexHelper.Leafs, InvertedIndexHelper.Paths, Typed, EntryOf, Readable, Content, StoredSizes, Segregated;
      ghost var leafs, st, bytes := index.Leafs(), entries.st, entries.rw.device.storage;
      EntryOfKey(leafs, st.live, stranded, key);
      entries.LiveOffset(offset);
      EntryIsFixed(st.live[offset]);
      index.NoEmptyKey();
      entries.DeleteEntry(offset);
      DeleteStep(bytes, entries.rw.device.storage, st, entries.st, leafs, stranded, key, blob, indexOffset, version,
                 index.isChanged);
      assert index.Repr() == old(index.Repr());
      var _ := index.Delete(key);
    }

    /** Returns the value of a key. An expired entry is hidden, and removed on the way. */
    method Get(key: Key, now: int) returns (r: Result<Value>)
      requires Valid() && IsTimeT(now)
      modifies Repr()
      ensures Valid() && index.Repr() == old(index.Repr())
      ensures r == if key in Map() then Ok(Map()[key].value) else Err(KeyNotFound)
      ensures Map() == old(Map())
              || (Map() == old(Map()) - {key} && key in old(Map()) && old(Map())[key].expiry != None)
      ensures forall date | IsTimeT(date) && key in old(Map()) && old(Map())[key].expiry == Some(FromTimeT(date)) ::
                key !in Map() <==> Seconds(date) < Seconds(now)
      ensures Map() == Purged(old(Map()), key, now) && stranded == old(stranded)
      ensures forall size :: old(HasRoom(size)) ==> HasRoom(size)
      ensures key in old(Map()) && key !in Map() ==>
                old(Map())[key].value.Fixed() && HasRoom(old(Map())[key].value.HeaderSize())
      ensures old(FixedOnly()) ==> FixedOnly()
      ensures Unlisted() == old(Unlisted())
      ensures LastStored() == old(LastStored()) && (old(Segregates()) ==> Segregates())
      ensures |entries.rw.device.storage| == old(|entries.rw.device.storage|)
      ensures index.Paths() == old(index.Paths())
      ensures index.isChanged == (old(index.isChanged) || Map() != old(Map()))
    {
      hide PVEntriesManager.Valid, InvertedIndexHelper.Valid, PVEntriesManager.FixedOnly, Consistent, Entries,
           Restorable, Deleted, Dated, BlocksKept, Sound, Holds, LeafsOf, InvertedIndexHelper.Repr,
           InvertedIndexHelper.Leafs, InvertedIndexHelper.Paths, Typed, EntryOf, Readable, Content, StoredSizes, Segregated;
      EntryOfKey(index.Leafs(), entries.st.live, stranded, key);
      PurgesExactly(Map(), key, now);
      var offset := index.Get(key);
      if offset == NO_ID {
        return Err(KeyNotFound);
      }
      var expired := IsEntryExpired(offset, now);
      if !expired {
        entries.LiveReadable(offset);
        r := entries.GetEntryContent(offset, []);
        return;
      }
      Remove(key, offset);
      return Err(KeyNotFound);
    }

    method HasKey(key: Key, now: int) returns (r: StorageError)
      requires Valid() && IsTimeT(now)
      modifies Repr()
      ensures Valid() && index.Repr() == old(index.Repr())
      ensures r == if key in Map() then Success else KeyNotFound
      ensures Map() == old(Map())
              || (Map() == old(Map()) - {key} && key in old(Map()) && old(Map())[key].expiry != None)
      ensures forall date | IsTimeT(date) && key in old(Map()) && old(Map())[key].expiry == Some(FromTimeT(date)) ::
                key !in Map() <==> Seconds(date) < Seconds(now)
      ensures Map() == Purged(old(Map()), key, now) && stranded == old(stranded)
      ensures forall size :: old(HasRoom(size)) ==> HasRoom(size)
      ensures key in old(Map()) && key !in Map() ==>
                old(Map())[key].value.Fixed() && HasRoom(old(Map())[key].value.HeaderSize())
      ensures old(FixedOnly()) ==> FixedOnly()
      ensures Unlisted() == old(Unlisted())
      ensures LastStored() == old(LastStored()) && (old(Segregates()) ==> Segregates())
      ensures |entries.rw.device.storage| == old(|entries.rw.device.storage|)
      ensures index.Paths() == old(index.Paths())
      ensures index.isChanged == (old(index.isChanged) || Map() != old(Map()))
    {
      hide PVEntriesManager.Valid, InvertedIndexHelper.Valid, PVEntriesManager.FixedOnly, Consistent, Entries,
           Restorable, Deleted, Dated, BlocksKept, Sound, Holds, LeafsOf, InvertedIndexHelper.Repr,
           InvertedIndexHelper.Leafs, InvertedIndexHelper.Paths, Typed, EntryOf, Readable, Content, StoredSizes, Segregated;
      EntryOfKey(index.Leafs(), entries.st.live, stranded, key);
      PurgesExactly(Map(), key, now);
      var offset := index.Get(key);
      if offset == NO_ID {
        return KeyNotFound;
      }
      var expired := IsEntryExpired(offset, now);
      if !expired {
        return Success;
      }
      Remove(key, offset);
      return KeyNotFound;
    }

    /** Does any key ever stored start with the same character as the catalog? */
    method HasCatalog(catalog: Key) returns (r: StorageError)
      requires Valid()
      ensures r == Success || r == KeyNotFound
      ensures r == Success <==> catalog != [] && catalog[..1] in index.Paths()
    {
      hide InvertedIndexHelper.Paths;
      index.PathsClosed();
      var n := index.FindMaxSubKey(catalog);
      AhoCorasick.MaxSubKeyDecides(index.Paths(), catalog, n);
      return if n == 0 then KeyNotFound else Success;
    }

    /** Removes a key, expired or not. */
    method Delete(key: Key) returns (r: StorageError)
      requires Valid()
      modifies Repr()
      ensures Valid() && index.Repr() == old(index.Repr())
      ensures r == if key in old(Map()) then Success else KeyNotFound
      ensures Map() == old(Map()) - {key} && stranded == old(stranded)
      ensures forall size :: old(HasRoom(size)) ==> HasRoom(size)
      ensures key in old(Map()) && key !in Map() ==>
                old(Map())[key].value.Fixed() && HasRoom(old(Map())[key].value.HeaderSize())
      ensures old(FixedOnly()) ==> FixedOnly()
      ensures Unlisted() == old(Unlisted())
      ensures LastStored() == old(LastStored()) && (old(Segregates()) ==> Segregates())
      ensures |entries.rw.device.storage| == old(|entries.rw.device.storage|)
      ensures index.Paths() == old(index.Paths()) && index.isChanged == (old(index.isChanged) || r == Success)
    {
      hide PVEntriesManager.Valid, InvertedIndexHelper.Valid, PVEntriesManager.FixedOnly, Consistent, Entries,
           Restorable, Deleted, Dated, BlocksKept, Sound, Holds, LeafsOf, InvertedIndexHelper.Repr,
           InvertedIndexHelper.Leafs, InvertedIndexHelper.Paths, Typed, EntryOf, Readable, Content, StoredSizes, Segregated;
      EntryOfKey(index.Leafs(), entries.st.live, stranded, key);
      var offset := index.Get(key);
      if offset == NO_ID {
        assert Map() - {key} == Map();
        return KeyNotFound;
      }
      Remove(key, offset);
      return Success;
    }

    /** Sets the expiry date of a key and leaves its value alone. */
    method SetExpiredDate(key: Key, expired: int) returns (r: StorageError)
      requires Valid() && IsTimeT(expired)
      modifies Repr()
      ensures Valid() && index.Repr() == old(index.Repr())
      ensures r == if key in old(Map()) then Success else KeyNotFound
      ensures Map() == if key in old(Map())
                       then old(Map())[key := Entry(old(Map())[key].value, Some(FromTimeT(expired)))] else old(Map())
      ensures forall size :: HasRoom(size) == old(HasRoom(size))
      ensures stranded == old(stranded) && index.isChanged == old(index.isChanged)
      ensures old(FixedOnly()) ==> FixedOnly()
      ensures Unlisted() == old(Unlisted())
      ensures LastStored() == old(LastStored()) && (old(Segregates()) ==> Segregates())
      ensures |entries.rw.device.storage| == old(|entries.rw.device.storage|)
      ensures index.Paths() == old(index.Paths())
    {
      hide PVEntriesManager.Valid, InvertedIndexHelper.Valid, PVEntriesManager.FixedOnly, Consistent, Entries,
           Restorable, Deleted, Dated, BlocksKept, Sound, Holds, LeafsOf, InvertedIndexHelper.Repr,
           InvertedIndexHelper.Leafs, InvertedIndexHelper.Paths, Typed, EntryOf, Readable, Content, StoredSizes, Segregated;
      ghost var leafs, st, bytes := index.Leafs(), entries.st, entries.rw.device.storage;
      EntryOfKey(leafs, st.live, stranded, key);
      var offset := index.Get(key);
      if offset == NO_ID {
        return KeyNotFound;
      }
      entries.LiveOffset(offset);
      entries.SetEntryExpiredDate(offset, FromTimeT(expired));
      DateStep(bytes, entries.rw.device.storage, st, entries.st, leafs, stranded, key, FromTimeT(expired), blob,
               indexOffset, version, index.isChanged);
      assert index.Repr() == old(index.Repr());
      return Success;
    }

    /** Reads the expiry date of a key, whether or not it has passed. */
    method GetExpiredDate(key: Key) returns (r: Result<int>)
      requires Valid()
      ensures key !in old(Map()) ==> r == Err(KeyNotFound)
      ensures key in old(Map()) && old(Map())[key].expiry == None ==> r == Err(KeyDoesntExpired)
      ensures forall date | IsTimeT(date) && key in old(Map()) && old(Map())[key].expiry == Some(FromTimeT(date)) ::
                && r.Ok? && IsTimeT(r.value)
                && Unsigned(r.value) % U48 == Seconds(date) % U32 && Unsigned(r.value) / U48 == Seconds(date) / U32
      ensures r == if key in old(Map()) then ReadDate(old(Map())[key]) else Err(KeyNotFound)
    {
      hide InvertedIndexHelper.Valid, PVEntriesManager.FixedOnly, Consistent, Entries, Restorable, Deleted, Dated,
           BlocksKept, Sound, Holds, LeafsOf, InvertedIndexHelper.Repr, InvertedIndexHelper.Leafs,
           InvertedIndexHelper.Paths, Typed, EntryOf, Readable, Content;
      EntryOfKey(index.Leafs(), entries.st.live, stranded, key);
      var offset := index.Get(key);
      if offset == NO_ID {
        return Err(KeyNotFound);
      }
      var date := entries.GetEntryExpiredDate(offset);
      ExpiryIsValid(entries.st.live[offset]);
      ReadDateIs(EntryOf(entries.st.live[offset]));
      if date.Some? {
        return Ok(ToTimeT(date.value));
      }
      return Err(KeyDoesntExpired);
    }

    // ------------------------------------------------------------------ persistence

    /** Is the index that was stored last, if there is one, short enough to be read? */
    ghost predicate StoredReadable()
      reads this
    { indexOffset == 0 || (IsImage(blob.img) && |ImageBytes(blob.img)| <= MAXIMUM_TYPE_SIZE) }

    /**
     * Can a changed index be stored? The free lists must be segregated once the index stored last, if there is one, has
     * been deleted, and its deletion must not make two lists share a block.
     */
    ghost predicate CanStore()
      reads this, entries, entries.rw.device
    {
      if indexOffset == 0 then Segregates()
      else
        var sizes := LastStored().sizes;
        && |entries.st.bins| == BIN_COUNT && ChunkSizes(sizes) && |sizes| <= |blob.blocks|
        && StaysApart(entries.st.bins, sizes) && Segregated(ValueFreed(entries.st, blob.blocks, sizes))
    }

    /** The blocks once the index stored last, if there is one, has been deleted. */
    ghost function WithoutStored(): State
      requires CanStore()
      reads this, entries, entries.rw.device
    { if indexOffset == 0 then entries.st else ValueFreed(entries.st, blob.blocks, LastStored().sizes) }

    /** Will the free lists still be segregated when the volume has been closed? */
    ghost predicate ClosesSegregated()
      requires index.isChanged ==> CanStore()
      reads this, index, index.engine, index.engine.nodes.Values, entries, entries.rw.device
    {
      if index.isChanged then KeepsApart(WithoutStored(), SerializedLength(|index.Leafs()|, |index.Paths()|))
      else Segregates()
    }

    /** How long the serialized index is. */
    ghost function IndexLength(): (length: nat)
      ensures 0 < length
      reads index, index.engine, index.engine.nodes.Values
    { SerializedLength(|index.Leafs()|, |index.Paths()|) }

    /** Is there room for the first block that the index asks for? */
    ghost predicate RoomForIndex()
      requires CanStore()
      reads this, index, index.engine, index.engine.nodes.Values, entries, entries.allocator, entries.rw.device
    {
      && |WithoutStored().bins| == BIN_COUNT
      && (Serves(WithoutStored().bins, IndexLength() + COMPLEX_SIZE) || entries.CanGrow())
    }

    /** Would one block take the whole index, and can the volume grow? */
    ghost predicate IndexIsShort()
      requires CanStore()
      reads this, index, index.engine, index.engine.nodes.Values, entries, entries.allocator, entries.rw.device
    { entries.CanGrow() && Admits(WithoutStored(), IndexLength()) }

    /**
     * The writer of an index of so many bytes is stuck: there is no room for the block that is to take what has not been
     * written yet.
     */
    ghost predicate IndexStuck(length: nat, before: set<nat>)
      reads entries, entries.allocator, entries.rw.device
    {
      exists img, blocks, spare, written ::
        IsImage(img) && |ImageBytes(img)| == length && entries.Stuck(ImageBytes(img), blocks, spare, written, BLOB, before)
    }

    /** Writing an index fails only when the writer is stuck; without `room` it fails, and not if the index is `short`. */
    ghost predicate WritesIf(r: Result<()>, length: nat, before: set<nat>, room: bool, short: bool)
      reads entries, entries.allocator, entries.rw.device
    {
      && (r.Err? ==> OutOfRoom(entries.rw.device) && IndexStuck(length, before))
      && (!room ==> r.Err?) && (short ==> r.Ok?)
    }

    /** Deletes the index stored last, if there is one. */
    method DeleteStored()
      requires Valid() && CanStore()
      modifies entries, entries.rw.device, entries.freelist.offsets
      ensures entries.Valid() && Segregates() && entries.st.live == old(entries.st.live)
      ensures entries.st == old(WithoutStored())
      ensures entries.priority == old(entries.priority)
      ensures |entries.rw.device.storage| == old(|entries.rw.device.storage|)
      ensures entries.HasRoom(IndexLength() + COMPLEX_SIZE) == old(RoomForIndex())
      ensures entries.Roomy(IndexLength()) == old(IndexIsShort())
    {
      hide PVEntriesManager.Valid, InvertedIndexHelper.Valid, Consistent, Sound, Holds, LeafsOf, LongAt, IsImage,
           ImageBytes, Serves, Admits, Rounded, IndexLength, Segregated, StaysApart, FirstSizes, FirstTwoFreed, AllFreed,
           NothingLost, KeepsAll, Kept,
           ChunkSizes, BlobAt, InvertedIndexHelper.Repr, InvertedIndexHelper.Leafs, InvertedIndexHelper.Paths, Indexes;
      if indexOffset != 0 {
        BlobParts(entries.rw.device.storage, entries.st, blob, indexOffset);
        entries.DeleteComplexEntry(indexOffset, blob.blocks, ImageBytes(blob.img), blob.spare, BLOB);
      }
    }

    /** The index with these leafs and so many nodes is on the device. */
    ghost predicate IndexStored(leafs: map<Key, nat>, nodes: nat)
      reads this, entries, entries.rw.device
    {
      && indexOffset != 0 && Restorable(entries.rw.device.storage, entries.st, blob, indexOffset, version, leafs, false)
      && IsImage(blob.img) && |ImageBytes(blob.img)| == SerializedLength(|leafs|, nodes)
    }

    /** Writes the serialized index as one long value. */
    method WriteIndex(serialized: seq<byte>, ghost img: IndexFormat.Image, ghost leafs: map<Key, nat>, ghost nodes: nat)
      returns (r: Result<()>)
      requires entries.Valid() && Segregates()
      requires IsImage(img) && serialized == ImageBytes(img) && 24 < |serialized| && |serialized| + COMPLEX_SIZE < U64
      requires Indexes(img.trie, NO_ID) && leafs == LeafsOf(img.trie, NO_ID) && img.version == version
      requires |serialized| == SerializedLength(|leafs|, nodes)
      modifies this`indexOffset, this`blob, entries.Repr()
      ensures entries.Valid() && entries.st.live == old(entries.st.live) && entries.priority == old(entries.priority)
      ensures old(|entries.rw.device.storage|) <= |entries.rw.device.storage|
      ensures WritesIf(r, |serialized|, old(entries.st.used), old(entries.HasRoom(|serialized| + COMPLEX_SIZE)),
                       old(entries.Roomy(|serialized|)))
      ensures r.Ok? ==> IndexStored(leafs, nodes)
      ensures r.Ok? && KeepsApart(old(entries.st), |serialized|) ==> Segregates()
    {
      hide PVEntriesManager.Valid, Restorable, BlocksKept, Writing, IsImage, ImageBytes, Indexes, Sound, Holds, LeafsOf,
           Segregated, Readable, Content, SerializedLength, KeepsApart, PVEntriesManager.Stuck, PVEntriesManager.Roomy,
           PVEntriesManager.HasRoom;
      ghost var before := entries.st.used;
      var offset, blocks, spare, written := entries.WriteComplexType(BLOB, serialized);
      if offset.Err? {
        return Err(offset.error);
      }
      blob := IndexBlob(img, blocks, spare);
      indexOffset := offset.value;
      entries.WrittenOffset(blocks, serialized, spare, BLOB, before);
      IndexWritten(entries.rw.device.storage, entries.st, blob, before, serialized, version, leafs);
      return Ok(());
    }

    /** Writes the serialized index in place of the one stored last. */
    method ReplaceIndex(serialized: seq<byte>, ghost img: IndexFormat.Image) returns (r: Result<()>)
      requires Valid() && CanStore()
      requires IsImage(img) && serialized == ImageBytes(img) && 24 < |serialized| && |serialized| + COMPLEX_SIZE < U64
      requires Indexes(img.trie, NO_ID) && index.Leafs() == LeafsOf(img.trie, NO_ID) && img.version == version
      requires |serialized| == IndexLength()
      modifies this`indexOffset, this`blob, entries.Repr()
      ensures entries.Valid() && entries.st.live == old(entries.st.live) && entries.priority == old(entries.priority)
      ensures old(|entries.rw.device.storage|) <= |entries.rw.device.storage|
      ensures WritesIf(r, |serialized|, old(WithoutStored().used), old(RoomForIndex()), old(IndexIsShort()))
      ensures r.Ok? ==> IndexStored(old(index.Leafs()), |old(index.Paths())|)
      ensures r.Ok? && KeepsApart(old(WithoutStored()), |serialized|) ==> Segregates()
    {
      hide PVEntriesManager.Valid, InvertedIndexHelper.Valid, PVEntriesManager.FixedOnly, Consistent, Entries,
           Restorable, BlocksKept, IsImage, ImageBytes, Indexes, Sound, Holds, LeafsOf, InvertedIndexHelper.Repr,
           InvertedIndexHelper.Leafs, InvertedIndexHelper.Paths, StoredSizes, Segregated, CanStore, LastStored,
           IndexStored, KeepsApart, WithoutStored, IndexStuck, RoomForIndex, IndexIsShort, PVEntriesManager.HasRoom,
           PVEntriesManager.Roomy, WritesIf;
      DeleteStored();
      r := WriteIndex(serialized, img, index.Leafs(), |index.Paths()|);
    }

    /** Stores a changed index in place of the one stored last. */
    method StoreIndex() returns (r: Result<()>)
      requires Valid() && |index.Paths()| <= MAXIMUM_NODES && index.isChanged && CanStore()
      modifies this`indexOffset, this`blob, entries.Repr()
      ensures entries.Valid() && entries.st.live == old(entries.st.live) && entries.priority == old(entries.priority)
      ensures old(|entries.rw.device.storage|) <= |entries.rw.device.storage|
      ensures WritesIf(r, old(IndexLength()), old(WithoutStored().used), old(RoomForIndex()), old(IndexIsShort()))
      ensures r.Ok? ==> IndexStored(old(index.Leafs()), |old(index.Paths())|)
      ensures r.Ok? && old(ClosesSegregated()) ==> Segregates()
    {
      hide PVEntriesManager.Valid, InvertedIndexHelper.Valid, PVEntriesManager.FixedOnly, Consistent, Entries,
           Restorable, BlocksKept, IsImage, ImageBytes, Indexes, Sound, Holds, LeafsOf, InvertedIndexHelper.Repr,
           InvertedIndexHelper.Leafs, InvertedIndexHelper.Paths, StoredSizes, Segregated, CanStore, LastStored,
           Serializes, IndexStored, KeepsApart, WithoutStored, RoomForIndex, IndexIsShort, WritesIf;
      var serialized, img := index.Serialize(version);
      index.Indexed();
      BlobIsLong(img);
      r := ReplaceIndex(serialized, img);
    }

    /**
     * Closes the volume: stores the index if it has changed, and then the start of the volume. The library does this in
     * the destructor and swallows the exception that `r` stands for. It fails only where the writer of the index is stuck,
     * so it does if there is no room for the first block; and it does not if the index has not changed, or if one block
     * takes it and the volume can grow.
     */
    method Close() returns (r: Result<()>, ghost header: PVHeader)
      requires Valid() && |index.Paths()| <= MAXIMUM_NODES && (index.isChanged ==> CanStore())
      modifies Repr()
      ensures r.Err? ==> OutOfRoom(entries.rw.device)
      ensures r.Err? ==> old(index.isChanged) && IndexStuck(old(IndexLength()), old(WithoutStored().used))
      ensures old(index.isChanged && !RoomForIndex()) ==> r.Err?
      ensures old(index.isChanged && IndexIsShort()) ==> r.Ok?
      ensures old(|entries.rw.device.storage|) <= |entries.rw.device.storage|
      ensures entries.rw.device.Valid() && stranded == old(stranded)
      ensures r.Ok? ==> header.version == version && header.priority == old(entries.priority)
                        && header.indexOffset == indexOffset
      ensures r.Ok? ==> (indexOffset != 0 <==> old(index.isChanged) || old(indexOffset) != 0)
      ensures r.Ok? && indexOffset == 0 ==> forall v :: !Accepted(entries.rw.device.storage, v)
      ensures r.Ok? && indexOffset != 0 ==>
                var saved := SavedVolume(entries.st, header, blob, stranded);
                SavedOn(entries.rw.device.storage, saved) && SavedMap(entries.rw.device.storage, saved) == old(Map())
      ensures r.Ok? && old(index.isChanged) ==>
                IsImage(blob.img)
                && |ImageBytes(blob.img)| == SerializedLength(|old(index.Leafs())|, |old(index.Paths())|)
      ensures !old(index.isChanged) ==> blob == old(blob)
      ensures r.Ok? && old(ClosesSegregated()) ==> Segregates()
    {
      hide PVEntriesManager.Valid, InvertedIndexHelper.Valid, PVEntriesManager.FixedOnly, Consistent, Entries,
           Restorable, Deleted, Dated, BlocksKept, SavedOn, SavedMap, Closed, Accepted, Kept, Writing, IsImage,
           ImageBytes, Indexes, Unsigned32, Sound, Holds, LeafsOf, InvertedIndexHelper.Repr,
           InvertedIndexHelper.Leafs, InvertedIndexHelper.Paths, Typed, EntryOf, Readable, Content, StoredSizes, Segregated,
           IndexStuck, RoomForIndex, IndexIsShort, IndexLength, KeepsApart, WithoutStored;
      header := entries.HeaderFor(0);
      ghost var leafs := index.Leafs();
      if index.isChanged {
        var stored := StoreIndex();
          entries.ReadyToClose(0);
        if stored.Err? {
          return stored, header;
        }
      }
      StoredOffset(entries.rw.device.storage, entries.st, blob, indexOffset, version, leafs, false);
      entries.ReadyToClose(indexOffset);
      header := entries.HeaderFor(indexOffset);
      ghost var bytes := entries.rw.device.storage;
      var done := entries.SaveStartEntries(indexOffset);
      entries.StartOverBlocks(bytes, header);
      assert done.Ok?;
      if indexOffset != 0 {
        CloseStep(bytes, entries.rw.device.storage, entries.st, header, blob, stranded, leafs);
      } else {
        forall v
          ensures !Accepted(entries.rw.device.storage, v)
        {
          NoIndexIsRefused(entries.rw.device.storage, entries.st, header, v);
        }
      }
      return done, header;
    }

    /** Creates a volume on a device that holds nothing yet. */
    static method Create(device: TestDevice, version: Version, priority: int) returns (r: Result<PVManager>)
      requires device.Valid() && device.storage == [] && -I31 <= priority < I31
      modifies device
      ensures r.Ok? <==> DATA_START <= device.capacity
      ensures r.Err? ==> r.error == UnknownExceptionType
      ensures r.Ok? ==> r.value.entries.rw.device == device && fresh(r.value) && fresh(r.value.entries)
      ensures r.Ok? ==> fresh(r.value.entries.freelist.offsets) && fresh(r.value.entries.allocator)
      ensures r.Ok? ==> fresh(r.value.index.Repr())
      ensures r.Ok? ==> r.value.Valid() && r.value.Map() == map[] && r.value.stranded == {}
      ensures r.Ok? ==> r.value.FixedOnly() && r.value.Unlisted() == {} && r.value.entries.priority == priority
      ensures r.Ok? ==> r.value.version == version && r.value.indexOffset == 0 && !r.value.index.isChanged
      ensures r.Ok? ==> r.value.Segregates() && r.value.index.Paths() == {[]}
      ensures r.Ok? ==> forall size :: r.value.HasRoom(size) <==> DATA_START + 5 * CLUSTER_SIZE <= device.capacity
    {
      hide InvertedIndexHelper.Valid, PVEntriesManager.FixedOnly, Consistent, Entries, Restorable, Sound, Holds,
           LeafsOf, InvertedIndexHelper.Paths, InvertedIndexHelper.Leafs, InvertedIndexHelper.Repr, Words;
      var entries := new PVEntriesManager(device, version, priority, CLUSTER_SIZE);
      var saved := entries.SaveStartEntries(0);
      if saved.Err? {
        return Err(saved.error);
      }
      entries.StartsEmpty();
      var index := new InvertedIndexHelper(NO_ID);
      ghost var blob: IndexBlob := *;
      NothingStored();
      NothingToRestore(device.storage, entries.st, blob, version, index.Leafs(), index.isChanged);
      var manager := new PVManager(index, entries, version, 0, blob, {});
      return Ok(manager);
    }

    /** Reads the stored index and rebuilds it. */
    static method LoadIndex(entries: PVEntriesManager, indexOffset: nat, version: Version, ghost blob: IndexBlob)
      returns (r: Result<InvertedIndexHelper>)
      requires entries.rw.clusterSize == CLUSTER_SIZE && BlobAt(entries.rw.device.storage, entries.st, blob, indexOffset)
      requires IsImage(blob.img) && blob.img.version.Number() <= version.Number()
      requires blob.img.trie[[] := NO_ID] == blob.img.trie
      ensures r.Ok? <==> |ImageBytes(blob.img)| <= MAXIMUM_TYPE_SIZE
      ensures r.Err? ==> r.error == CorruptedHeaderError
      ensures r.Ok? ==> fresh(r.value) && fresh(r.value.Repr()) && r.value.Valid() && !r.value.isChanged
                        && r.value.engine.none == NO_ID && r.value.Leafs() == LeafsOf(blob.img.trie, NO_ID)
                        && |r.value.Paths()| * NODE_SIZE <= MAXIMUM_TYPE_SIZE
    {
      hide InvertedIndexHelper.Valid, BlobAt, IsImage, ImageBytes, Indexes, LeafsOf, InvertedIndexHelper.Repr,
           InvertedIndexHelper.Leafs, InvertedIndexHelper.Paths, Readable, Content;
      BlobReadable(entries.rw.device.storage, entries.st, blob, indexOffset);
      var serialized := entries.GetEntryContent(indexOffset, ImageBytes(blob.img));
      if serialized.Err? {
        return Err(serialized.error);
      }
      BeginsWhole(blob.img);
      r := InvertedIndexHelper.Deserialize(serialized.value.bytes, version, blob.img);
      if r.Ok? {
        r.value.Indexed();
        PathsFit(r.value, blob.img);
      }
    }

    /**
     * Loads a volume from a device that holds a closed one, or one whose start is not accepted.
     */
    static method Load(device: TestDevice, version: Version, ghost saved: SavedVolume) returns (r: Result<PVManager>)
      requires device.Valid() && (Accepted(device.storage, version) ==> SavedOn(device.storage, saved))
      ensures r.Ok? <==> Accepted(device.storage, version) && |ImageBytes(saved.blob.img)| <= MAXIMUM_TYPE_SIZE
      ensures r.Err? ==> r.error == if |device.storage| < PV_HEADER_SIZE then DeviceReadError else
                                      var h := UnpackPV(device.storage[0..PV_HEADER_SIZE]);
                                      if h.signature != SIGNATURE || version.Number() < h.version.Number()
                                         || h.indexOffset == 0
                                      then InvalidPVSignatureError
                                      else if |device.storage| < DATA_START then DeviceReadError
                                      else CorruptedHeaderError
      ensures r.Ok? ==> r.value.entries.rw.device == device && fresh(r.value) && fresh(r.value.entries)
      ensures r.Ok? ==> fresh(r.value.entries.freelist.offsets) && fresh(r.value.entries.allocator)
      ensures r.Ok? ==> fresh(r.value.index.Repr())
      ensures r.Ok? ==> r.value.Valid() && r.value.Map() == SavedMap(device.storage, saved)
      ensures r.Ok? ==> r.value.stranded == saved.stranded && r.value.entries.priority == saved.header.priority
      ensures r.Ok? ==> r.value.version == version && r.value.indexOffset != 0 && !r.value.index.isChanged
      ensures r.Ok? ==> r.value.entries.st == saved.st && r.value.blob == saved.blob
                        && r.value.indexOffset == saved.header.indexOffset
      ensures r.Ok? ==> r.value.StoredReadable() && |r.value.index.Paths()| * NODE_SIZE <= MAXIMUM_TYPE_SIZE
    {
      hide InvertedIndexHelper.Valid, PVEntriesManager.FixedOnly, Consistent, Entries, Restorable, Deleted, Dated,
           BlocksKept, SavedOn, SavedMap, Closed, Accepted, Kept, Writing, IsImage, ImageBytes, Indexes, Unsigned32,
           Sound, Holds, LeafsOf, InvertedIndexHelper.Repr, InvertedIndexHelper.Leafs, InvertedIndexHelper.Paths,
           Typed, EntryOf, Readable, Content;
      var entries := new PVEntriesManager(device, version, 0, CLUSTER_SIZE);
      var indexOffset := entries.LoadStartEntries(saved.st, saved.header);
      if indexOffset.Err? {
        return Err(indexOffset.error);
      }
      SavedParts(device.storage, saved);
      SavedRestorable(device.storage, saved, version);
      var index := LoadIndex(entries, indexOffset.value, version, saved.blob);
      if index.Err? {
        return Err(index.error);
      }
      var manager := new PVManager(index.value, entries, version, indexOffset.value, saved.blob, saved.stranded);
      return Ok(manager);
    }
  }

  lemma BeginsWhole(img: IndexFormat.Image)
    requires IsImage(img)
    ensures Begins(img, ImageBytes(img))
  {
    hide IsImage, ImageBytes;
  }

  /** A rebuilt index has one path for each record. */
  lemma PathsFit(index: InvertedIndexHelper, img: IndexFormat.Image)
    requires IsImage(img) && index.Valid() && index.engine.T() == img.trie[[] := NO_ID]
    requires |ImageBytes(img)| <= MAXIMUM_TYPE_SIZE
    ensures |index.Paths()| * NODE_SIZE <= MAXIMUM_TYPE_SIZE
  {
    hide IsImage, ImageBytes, AhoCorasick.AhoCorasickEngine.Valid;
    index.engine.PathsOf();
    EveryNodeOnce(img, []);
    ImageLength(img);
    RootListed(img);
    assert img.trie[[] := NO_ID].Keys == img.trie.Keys == index.Paths();
  }

  /** Would the serialized index be longer than the format allows? */
  predicate TooLong(leafs: nat, nodes: nat) {
    SerializedLength(leafs, nodes) > MAXIMUM_TYPE_SIZE
  }

  /** Do all these chunks hold more than 32 bytes? */
  predicate Wide(sizes: seq<nat>) {
    forall i | 0 <= i < |sizes| :: COMPLEX_DATA < sizes[i]
  }

  /**
   * A volume whose lists are segregated can store its index again if the chunks that deleting the old one frees hold more
   * than 32 bytes, and each goes to the class it is linked to or the volume stays intact all the same.
   */
  lemma CanStoreAgain(manager: PVManager)
    requires manager.Valid() && manager.Segregates()
    requires manager.indexOffset != 0 ==>
               var sizes, bins := manager.LastStored().sizes, manager.entries.st.bins;
               Wide(sizes) && (SameClasses(sizes)
                               || (ChunkSizes(sizes) && |bins| == BIN_COUNT && StaysApart(bins, sizes)))
    ensures manager.CanStore()
  {
    hide InvertedIndexHelper.Valid, Consistent, Holds, LeafsOf, LongAt, IsImage, ImageBytes, Segregated,
         InvertedIndexHelper.Repr, Indexes, FirstSizes, Sound, StaysApart, SameClasses;
    if manager.indexOffset != 0 {
      var entries, blob := manager.entries, manager.blob;
      BlobParts(entries.rw.device.storage, entries.st, blob, manager.indexOffset);
      FirstSizesFit(entries.rw.device.storage, entries.st, blob.blocks, ImageBytes(blob.img), blob.spare, BLOB);
      SoundBasics(entries.st);
      var sizes := FirstSizes(entries.rw.device.storage, blob.blocks);
      if SameClasses(sizes) {
        SameClassesSuffice(entries.st.bins, sizes);
      }
      ValueFreedSegregated(entries.st, blob.blocks, sizes);
    }
  }

  /**
   * Persistence: closing a volume and loading it again gives the same map, provided that the serialized index is not
   * longer than the format allows. The reader must support the version of the writer, and a changed index must be one
   * that can be stored. A volume that has no index, and never had one, cannot be loaded.
   */
  method Reopen(manager: PVManager, version: Version) returns (r: Result<PVManager>)
    requires manager.Valid() && |manager.index.Paths()| <= MAXIMUM_NODES && manager.version.Number() <= version.Number()
    requires manager.index.isChanged ==> manager.CanStore()
    modifies manager.Repr()
    ensures old(|manager.entries.rw.device.storage|) <= |manager.entries.rw.device.storage|
    ensures r.Ok? ==> r.value.Valid() && r.value.Map() == old(manager.Map())
    ensures r.Ok? ==> r.value.stranded == old(manager.stranded) && r.value.entries.priority == old(manager.entries.priority)
    ensures r.Ok? ==> r.value.version == version && !r.value.index.isChanged && r.value.indexOffset != 0
                      && r.value.StoredReadable() && |r.value.index.Paths()| * NODE_SIZE <= MAXIMUM_TYPE_SIZE
    ensures r.Ok? && old(manager.ClosesSegregated()) ==> r.value.Segregates()
    ensures r.Ok? ==> old(manager.index.isChanged || manager.indexOffset != 0)
    ensures r.Err? ==> || (OutOfRoom(manager.entries.rw.device) && old(manager.index.isChanged)
                           && manager.IndexStuck(old(manager.IndexLength()), old(manager.WithoutStored().used)))
                       || !old(manager.index.isChanged || manager.indexOffset != 0)
                       || (if old(manager.index.isChanged)
                           then TooLong(|old(manager.index.Leafs())|, |old(manager.index.Paths())|)
                           else !old(manager.StoredReadable()))
    ensures (old(manager.index.isChanged && manager.IndexIsShort())
             && !TooLong(|old(manager.index.Leafs())|, |old(manager.index.Paths())|)) ==> r.Ok?
  {
    hide PVManager.Valid, PVManager.Map, SavedOn, SavedMap, Accepted, IsImage, ImageBytes, OutOfRoom, UnpackPV,
         InvertedIndexHelper.Repr, InvertedIndexHelper.Paths, InvertedIndexHelper.Leafs, PVManager.FixedOnly,
         PVManager.CanStore, PVManager.ClosesSegregated, PVManager.IndexStuck, PVManager.RoomForIndex,
         PVManager.IndexIsShort, PVManager.WithoutStored, PVManager.IndexLength;
    var closed, header := manager.Close();
    if closed.Err? {
      return Err(closed.error);
    }
    ghost var saved := SavedVolume(manager.entries.st, header, manager.blob, manager.stranded);
    if manager.indexOffset != 0 {
      SavedIsAccepted(manager.entries.rw.device.storage, saved, version);
      SavedParts(manager.entries.rw.device.storage, saved);
    }
    r := PVManager.Load(manager.entries.rw.device, version, saved);
  }
}
