/** The serialized index as a value on the volume, and what a closed volume consists of. */
module StoredIndex {
  import opened Bytes
  import opened Errors
  import opened Layout
  import opened Blocks
  import opened Image
  import opened DataReaderWriter
  import opened Chains
  import opened LongDeletion
  import opened Segregation
  import opened Time
  import opened Values
  import opened VolumeHeader
  import opened EntrySteps
  import opened VolumeMap
  import opened InvertedIndex
  import opened IndexFormat
  import opened IndexReading
  import opened Versions

  /** A serialized index: the chunks that hold it, and the block its last chunk links to. */
  datatype IndexBlob = IndexBlob(img: IndexFormat.Image, blocks: seq<nat>, spare: nat)

  /** The blob starts at `offset`, in blocks of its own. */
  ghost predicate BlobAt(bytes: seq<byte>, st: State, blob: IndexBlob, offset: nat) {
    && IsImage(blob.img) && LongAt(bytes, st, blob.blocks, ImageBytes(blob.img), blob.spare, BLOB)
    && blob.blocks[0] == offset != 0
  }

  lemma BlobParts(bytes: seq<byte>, st: State, blob: IndexBlob, offset: nat)
    requires BlobAt(bytes, st, blob, offset)
    ensures IsImage(blob.img) && LongAt(bytes, st, blob.blocks, ImageBytes(blob.img), blob.spare, BLOB)
    ensures blob.blocks != [] && blob.blocks[0] == offset != 0 && offset in st.used && offset in st.extent
    ensures offset < |bytes| && bytes[offset] == BLOB
  {
    hide ChainVia, IsImage, ImageBytes, ChunksFit;
    assert offset in blob.blocks;
  }

  /** The value a writer has just completed. */
  lemma BlobWritten(bytes: seq<byte>, st: State, blob: IndexBlob, before: set<nat>)
    requires IsImage(blob.img) && blob.blocks != [] && blob.blocks[0] != 0
    requires Writing(bytes, st, blob.blocks, ImageBytes(blob.img), blob.spare, |ImageBytes(blob.img)|, BLOB, before)
    ensures BlobAt(bytes, st, blob, blob.blocks[0])
  {
    hide Writing, LongAt, IsImage, ImageBytes;
    WrittenIsLong(bytes, st, blob.blocks, ImageBytes(blob.img), blob.spare, BLOB, before);
  }

  /** A blob does not notice what happens in blocks that are not its own. */
  lemma BlobKept(bytes: seq<byte>, bytes': seq<byte>, st: State, st': State, blob: IndexBlob, offset: nat)
    requires BlobAt(bytes, st, blob, offset) && st.used <= st'.used
    requires forall o | o in blob.blocks :: o in st.extent &&
               o in st'.extent && st'.extent[o] == st.extent[o] && SameBlock(bytes, bytes', o, st.extent[o])
    ensures BlobAt(bytes', st', blob, offset)
  {
    hide ChainVia, ChunksFit, KindsAt, IsImage, ImageBytes, SameBlock;
    LongKept(bytes, bytes', st, st', blob.blocks, ImageBytes(blob.img), blob.spare, BLOB);
  }

  /** Changes to simple entries leave the blob alone. */
  lemma BlobSurvives(bytes: seq<byte>, bytes': seq<byte>, st: State, st': State, except: set<nat>, blob: IndexBlob,
                     offset: nat)
    requires BlobAt(bytes, st, blob, offset) && st.used <= st'.used && BlocksKept(bytes, bytes', st, st', except)
    requires except !! st.used
    ensures BlobAt(bytes', st', blob, offset)
  {
    hide ChainVia, IsImage, ImageBytes, SameBlock, ChunksFit;
    BlobKept(bytes, bytes', st, st', blob, offset);
  }

  /** If the volume has been closed before, the index it was closed with is still there; `leafs` is the current one. */
  ghost predicate Restorable(bytes: seq<byte>, st: State, blob: IndexBlob, offset: nat, version: Version,
                             leafs: map<Key, nat>, isChanged: bool)
  {
    offset != 0 ==>
      && BlobAt(bytes, st, blob, offset) && blob.img.version.Number() <= version.Number() && Indexes(blob.img.trie, NO_ID)
      && (!isChanged ==> leafs == LeafsOf(blob.img.trie, NO_ID))
  }

  lemma StillRestorable(bytes: seq<byte>, bytes': seq<byte>, st: State, st': State, except: set<nat>, blob: IndexBlob,
                        offset: nat, version: Version, leafs: map<Key, nat>, isChanged: bool)
    requires Restorable(bytes, st, blob, offset, version, leafs, isChanged)
    requires st.used <= st'.used && BlocksKept(bytes, bytes', st, st', except) && except !! st.used
    ensures Restorable(bytes', st', blob, offset, version, leafs, isChanged)
    ensures forall leafs' :: Restorable(bytes', st', blob, offset, version, leafs', true)
    ensures StoredSizes(bytes', blob, offset) == StoredSizes(bytes, blob, offset)
  {
    hide BlobAt, LeafsOf, Indexes, BlocksKept, FirstSizes;
    if offset != 0 {
      BlobSurvives(bytes, bytes', st, st', except, blob, offset);
      SizesSurvive(bytes, bytes', st, st', except, blob, offset);
    }
  }

  /** The sizes of the chunks that deleting the stored index would free. */
  ghost function StoredSizes(bytes: seq<byte>, blob: IndexBlob, offset: nat): seq<nat> {
    if offset == 0 || blob.blocks == [] then [] else FirstSizes(bytes, blob.blocks)
  }

  lemma SizesSurvive(bytes: seq<byte>, bytes': seq<byte>, st: State, st': State, except: set<nat>, blob: IndexBlob,
                     offset: nat)
    requires BlobAt(bytes, st, blob, offset) && BlocksKept(bytes, bytes', st, st', except) && except !! st.used
    ensures blob.blocks != [] && FirstSizes(bytes', blob.blocks) == FirstSizes(bytes, blob.blocks)
  {
    BlobParts(bytes, st, blob, offset);
    hide BlobAt, LongAt, BlocksKept, IsImage, ImageBytes, ChunkSize;
    SizeSurvives(bytes, bytes', st, st', except, blob, offset, 0);
    if |blob.blocks| > 1 {
      SizeSurvives(bytes, bytes', st, st', except, blob, offset, 1);
    }
  }

  lemma SizeSurvives(bytes: seq<byte>, bytes': seq<byte>, st: State, st': State, except: set<nat>, blob: IndexBlob,
                     offset: nat, i: nat)
    requires BlobAt(bytes, st, blob, offset) && BlocksKept(bytes, bytes', st, st', except) && except !! st.used
    requires i < |blob.blocks|
    ensures SizeAt(bytes', blob.blocks[i]) == SizeAt(bytes, blob.blocks[i])
  {
    hide LongAt, IsImage, ImageBytes;
    var o := blob.blocks[i];
    LongChunk(bytes, st, blob.blocks, ImageBytes(blob.img), blob.spare, BLOB, i);
    SameShorter(bytes, bytes', o, st.extent[o], COMPLEX_SIZE);
  }

  /** So does writing the start of the volume. */
  lemma BlobBehind(bytes: seq<byte>, bytes': seq<byte>, st: State, blob: IndexBlob, offset: nat)
    requires BlobAt(bytes, st, blob, offset) && Kept(bytes, bytes', st.extent)
    ensures BlobAt(bytes', st, blob, offset)
  {
    hide ChainVia, IsImage, ImageBytes, SameBlock, ChunksFit;
    BlobKept(bytes, bytes', st, st, blob, offset);
  }

  /** Reading the entry at the blob yields the serialized index, as long as it is not too long for the format. */
  lemma BlobReadable(bytes: seq<byte>, st: State, blob: IndexBlob, offset: nat)
    requires BlobAt(bytes, st, blob, offset)
    ensures IsImage(blob.img) && Readable(bytes, offset, ImageBytes(blob.img))
    ensures Content(bytes, offset, ImageBytes(blob.img))
            == if |ImageBytes(blob.img)| > MAXIMUM_TYPE_SIZE then Err(CorruptedHeaderError)
               else Ok(Blob(ImageBytes(blob.img)))
  {
    hide IsImage, ImageBytes, ChainVia, ChainAt;
    BlobParts(bytes, st, blob, offset);
    ChainIsComplete(bytes, blob.blocks, ImageBytes(blob.img), true, blob.spare);
    StartsOnDevice(bytes, offset, ImageBytes(blob.img));
  }

  /** The serialized form of even the smallest trie is a long value: more than 24 bytes. */
  lemma BlobIsLong(img: IndexFormat.Image)
    requires IsImage(img)
    ensures 52 <= |ImageBytes(img)| <= 19 + 49 * |img.paths|
  {
    hide BreadthFirst;
    assert |img.paths| > 0 by {
      NotEmpty(img);
    }
  }

  lemma NotEmpty(img: IndexFormat.Image)
    requires IsImage(img)
    ensures 0 < |img.paths|
  {
  }

  // ------------------------------------------------------------- steps of the manager

  lemma PutStep(bytes: seq<byte>, bytes': seq<byte>, st: State, st': State, leafs: map<Key, nat>, stranded: set<nat>,
                key: Key, o: nat, v: Value, blob: IndexBlob, offset: nat, version: Version, isChanged: bool)
    requires Consistent(leafs, st.live, stranded) && Stored(st, st', o, v) && key !in leafs
    requires BlocksKept(bytes, bytes', st, st', {}) && Restorable(bytes, st, blob, offset, version, leafs, isChanged)
    ensures o in st'.live && st'.used == st.used
    ensures var leafs', stranded' := if key == [] then leafs else leafs[key := o],
                                     if key == [] then stranded + {o} else stranded;
            && Consistent(leafs', st'.live, stranded')
            && Entries(leafs', st'.live, stranded')
               == (if key == [] then Entries(leafs, st.live, stranded)
                   else Entries(leafs, st.live, stranded)[key := Entry(v, None)])
            && Restorable(bytes', st', blob, offset, version, leafs', isChanged || key != [])
            && (stranded' == stranded <==> key != [])
    ensures StoredSizes(bytes', blob, offset) == StoredSizes(bytes, blob, offset)
  {
    hide Consistent, Entries, Restorable, BlocksKept, StoredSizes;
    StoredFacts(st, st', o, v);
    EntryOfKey(leafs, st.live, stranded, key);
    StillRestorable(bytes, bytes', st, st', {}, blob, offset, version, leafs, isChanged);
    if key == [] {
      StoredStranded(leafs, st, st', stranded, o, v);
    } else {
      StoredUnder(leafs, st, st', stranded, key, o, v);
    }
  }

  lemma DeleteStep(bytes: seq<byte>, bytes': seq<byte>, st: State, st': State, leafs: map<Key, nat>, stranded: set<nat>,
                   key: Key, blob: IndexBlob, offset: nat, version: Version, isChanged: bool)
    requires Consistent(leafs, st.live, stranded) && key in leafs && EntrySteps.Deleted(st, st', leafs[key])
    requires BlocksKept(bytes, bytes', st, st', {leafs[key]}) && leafs[key] !in st.used
    requires Restorable(bytes, st, blob, offset, version, leafs, isChanged)
    ensures Consistent(leafs - {key}, st'.live, stranded)
    ensures Entries(leafs - {key}, st'.live, stranded) == Entries(leafs, st.live, stranded) - {key}
    ensures Restorable(bytes', st', blob, offset, version, leafs - {key}, true)
    ensures st'.used == st.used && StoredSizes(bytes', blob, offset) == StoredSizes(bytes, blob, offset)
  {
    hide Consistent, Entries, Restorable, BlocksKept, Release, StoredSizes;
    StillRestorable(bytes, bytes', st, st', {leafs[key]}, blob, offset, version, leafs, isChanged);
    DeletedUnder(leafs, st, st', stranded, key);
  }

  lemma DateStep(bytes: seq<byte>, bytes': seq<byte>, st: State, st': State, leafs: map<Key, nat>, stranded: set<nat>,
                 key: Key, expired: Time, blob: IndexBlob, offset: nat, version: Version, isChanged: bool)
    requires Consistent(leafs, st.live, stranded) && key in leafs && Dated(st, st', leafs[key], expired)
    requires BlocksKept(bytes, bytes', st, st', {leafs[key]}) && leafs[key] !in st.used
    requires Restorable(bytes, st, blob, offset, version, leafs, isChanged)
    ensures Consistent(leafs, st'.live, stranded)
    ensures var m := Entries(leafs, st.live, stranded);
            key in m && Entries(leafs, st'.live, stranded) == m[key := Entry(m[key].value, Some(expired))]
    ensures Restorable(bytes', st', blob, offset, version, leafs, isChanged)
    ensures st'.used == st.used && StoredSizes(bytes', blob, offset) == StoredSizes(bytes, blob, offset)
    ensures Segregated(st) ==> Segregated(st')
  {
    hide Consistent, Entries, Restorable, BlocksKept, Typed, EntryOf, StoredSizes, Segregated;
    SegregatedSame(st, st');
    EntryOfKey(leafs, st.live, stranded, key);
    StillRestorable(bytes, bytes', st, st', {leafs[key]}, blob, offset, version, leafs, isChanged);
    DatedUnder(leafs, st, st', stranded, key, expired);
  }

  /** What a closed volume consists of. */
  datatype SavedVolume = SavedVolume(st: State, header: PVHeader, blob: IndexBlob, stranded: set<nat>)

  ghost predicate SavedOn(bytes: seq<byte>, s: SavedVolume) {
    && Closed(bytes, s.st, s.header) && BlobAt(bytes, s.st, s.blob, s.header.indexOffset)
    && Indexes(s.blob.img.trie, NO_ID)
    && Consistent(LeafsOf(s.blob.img.trie, NO_ID), s.st.live, s.stranded)
    && s.blob.img.version.Number() <= s.header.version.Number()
  }

  ghost function SavedMap(bytes: seq<byte>, s: SavedVolume): map<Key, Entry>
    requires SavedOn(bytes, s)
  { Entries(LeafsOf(s.blob.img.trie, NO_ID), s.st.live, s.stranded) }

  /** An index without a leaf at the root comes back whole. */
  lemma RootStaysEmpty(t: map<Key, nat>)
    requires Indexes(t, NO_ID)
    ensures t[[] := NO_ID] == t
  {
    assert t[[] := NO_ID].Keys == t.Keys;
  }

  /** A volume is accepted by every manager that supports its version. */
  lemma SavedIsAccepted(bytes: seq<byte>, s: SavedVolume, version: Version)
    requires SavedOn(bytes, s)
    ensures Accepted(bytes, version) <==> s.header.version.Number() <= version.Number()
    ensures DATA_START <= |bytes| && UnpackPV(bytes[0..PV_HEADER_SIZE]).indexOffset == s.header.indexOffset
  {
    hide UnpackPV, Sound, Holds, IsImage, ImageBytes, Consistent, ChainVia;
    ClosedStart(bytes, s.st, s.header);
  }

  lemma SavedParts(bytes: seq<byte>, s: SavedVolume)
    requires SavedOn(bytes, s)
    ensures Closed(bytes, s.st, s.header) && BlobAt(bytes, s.st, s.blob, s.header.indexOffset) && IsImage(s.blob.img)
    ensures Indexes(s.blob.img.trie, NO_ID) && s.blob.img.trie[[] := NO_ID] == s.blob.img.trie
    ensures Consistent(LeafsOf(s.blob.img.trie, NO_ID), s.st.live, s.stranded)
    ensures s.blob.img.version.Number() <= s.header.version.Number()
    ensures SavedMap(bytes, s) == Entries(LeafsOf(s.blob.img.trie, NO_ID), s.st.live, s.stranded)
  {
    hide Consistent, Closed, BlobAt, IsImage, LeafsOf;
    RootStaysEmpty(s.blob.img.trie);
    BlobIsImage(bytes, s.st, s.blob, s.header.indexOffset);
  }

  lemma BlobIsImage(bytes: seq<byte>, st: State, blob: IndexBlob, offset: nat)
    requires BlobAt(bytes, st, blob, offset)
    ensures IsImage(blob.img)
  {
  }

  /** Closing a volume whose index is on the device saves it. */
  lemma CloseStep(bytes: seq<byte>, bytes': seq<byte>, st: State, h: PVHeader, blob: IndexBlob, stranded: set<nat>,
                  leafs: map<Key, nat>)
    requires Closed(bytes', st, h) && Kept(bytes, bytes', st.extent)
    requires Restorable(bytes, st, blob, h.indexOffset, h.version, leafs, false) && h.indexOffset != 0
    requires Consistent(leafs, st.live, stranded)
    ensures SavedOn(bytes', SavedVolume(st, h, blob, stranded))
    ensures SavedMap(bytes', SavedVolume(st, h, blob, stranded)) == Entries(leafs, st.live, stranded)
  {
    hide Consistent, Closed, BlobAt, Indexes, LeafsOf, Kept;
    BlobBehind(bytes, bytes', st, blob, h.indexOffset);
  }

  lemma NothingToRestore(bytes: seq<byte>, st: State, blob: IndexBlob, version: Version, leafs: map<Key, nat>,
                         isChanged: bool)
    ensures Restorable(bytes, st, blob, 0, version, leafs, isChanged)
  {
  }

  /** What a reader of a saved volume relies on. */
  lemma SavedRestorable(bytes: seq<byte>, s: SavedVolume, version: Version)
    requires SavedOn(bytes, s) && Accepted(bytes, version)
    ensures IsImage(s.blob.img) && s.header.indexOffset != 0 && s.blob.img.version.Number() <= version.Number()
    ensures Begins(s.blob.img, ImageBytes(s.blob.img))
    ensures Restorable(bytes, s.st, s.blob, s.header.indexOffset, version, LeafsOf(s.blob.img.trie, NO_ID), false)
  {
    hide Consistent, Closed, IsImage, LeafsOf, UnpackPV, Accepted, ImageBytes, Indexes, ChainVia, ChunksFit;
    SavedIsAccepted(bytes, s, version);
    BlobIsImage(bytes, s.st, s.blob, s.header.indexOffset);
  }

  lemma StoredOffset(bytes: seq<byte>, st: State, blob: IndexBlob, offset: nat, version: Version,
                     leafs: map<Key, nat>, isChanged: bool)
    requires Restorable(bytes, st, blob, offset, version, leafs, isChanged)
    ensures offset != 0 ==> offset < |bytes|
  {
  }

  /** A volume closed without an index is refused by every manager. */
  lemma NoIndexIsRefused(bytes: seq<byte>, st: State, h: PVHeader, version: Version)
    requires Closed(bytes, st, h) && h.indexOffset == 0
    ensures !Accepted(bytes, version)
  {
    hide UnpackPV, Sound, Holds;
    ClosedStart(bytes, st, h);
  }

  /** The index that has just been written is the one to be restored. */
  lemma IndexWritten(bytes: seq<byte>, st: State, blob: IndexBlob, before: set<nat>, data: seq<byte>, version: Version,
                     leafs: map<Key, nat>)
    requires IsImage(blob.img) && data == ImageBytes(blob.img) && blob.blocks != [] && blob.blocks[0] != 0
    requires Writing(bytes, st, blob.blocks, data, blob.spare, |data|, BLOB, before)
    requires blob.img.version == version && Indexes(blob.img.trie, NO_ID) && leafs == LeafsOf(blob.img.trie, NO_ID)
    ensures Restorable(bytes, st, blob, blob.blocks[0], version, leafs, false)
    ensures blob.blocks[0] in st.used
  {
    hide IsImage, ImageBytes, Indexes, LeafsOf, ChainVia, ChunksFit;
    BlobWritten(bytes, st, blob, before);
    assert blob.blocks[0] in blob.blocks;
  }
}
