/** What deleting a long value does on the device: its first two chunks get the headers of free blocks. */
module LongDeletion {
  import opened Bytes
  import opened Layout
  import opened Freelist
  import opened Blocks
  import opened Image
  import opened DataReaderWriter
  import opened Chains
  import opened FreedChunks

  /** The header that a chunk gets when it is freed. */
  function FreedChunk(h: ComplexHeader, next: nat): ComplexHeader {
    h.(kind := EMPTY_COMPLEX, state := COMPLEX_BEGIN, overall := h.chunk, next := next)
  }

  function FreeChunkAt(bytes: seq<byte>, o: nat, next: nat): seq<byte>
    requires o + COMPLEX_SIZE <= |bytes|
  { Splice(bytes, o, FreedChunk(UnpackComplex(bytes[o..o + COMPLEX_SIZE]), next).Pack()) }

  /** Freeing a chunk rewrites its header, and touches no other block. */
  lemma ChunkIsFreed(bytes: seq<byte>, st: State, o: nat, next: nat)
    requires Tiled(st.extent, |bytes|) && o in st.extent && COMPLEX_SIZE <= st.extent[o]
    ensures o + COMPLEX_SIZE <= |bytes| && |FreeChunkAt(bytes, o, next)| == |bytes|
    ensures FreeChunkAt(bytes, o, next)[o] == EMPTY_COMPLEX
    ensures Kept(bytes, FreeChunkAt(bytes, o, next), st.extent - {o})
  {
    var h := FreedChunk(UnpackComplex(bytes[o..o + COMPLEX_SIZE]), next);
    WriteInside(bytes, st.extent, o, o, h.Pack());
    SpliceAt(bytes, o, h.Pack());
    assert Splice(bytes, o, h.Pack())[o] == Splice(bytes, o, h.Pack())[o..o + COMPLEX_SIZE][0];
  }

  /** The first two chunks are marked as free, the others still as parts of the value. */
  ghost predicate FirstTwoFreed(bytes: seq<byte>, blocks: seq<nat>, kind: byte) {
    forall i | 0 <= i < |blocks| ::
      blocks[i] < |bytes| && bytes[blocks[i]] == if i < 2 then EMPTY_COMPLEX else kind
  }

  ghost predicate AllFreed(bytes: seq<byte>, blocks: seq<nat>) {
    forall o | o in blocks :: o < |bytes| && bytes[o] == EMPTY_COMPLEX
  }

  /** So a value is freed as a whole exactly if it has at most two chunks. */
  lemma FreedExactlyUpToTwo(bytes: seq<byte>, blocks: seq<nat>, kind: byte)
    requires FirstTwoFreed(bytes, blocks, kind) && kind != EMPTY_COMPLEX
    ensures AllFreed(bytes, blocks) <==> |blocks| <= 2
  {
    if |blocks| > 2 {
      assert blocks[2] in blocks;
    }
  }

  /** The chunk size that the header at `o` holds, and those of the chunks that a deletion frees. */
  ghost function SizeAt(bytes: seq<byte>, o: nat): nat {
    if o + COMPLEX_SIZE <= |bytes| then ChunkSize(bytes, o) else 0
  }

  ghost function FirstSizes(bytes: seq<byte>, blocks: seq<nat>): (sizes: seq<nat>)
    requires blocks != []
    ensures |sizes| == if |blocks| == 1 then 1 else 2
  { if |blocks| == 1 then [SizeAt(bytes, blocks[0])] else [SizeAt(bytes, blocks[0]), SizeAt(bytes, blocks[1])] }

  /** The blocks whose chunks a deletion frees. */
  function FirstBlocks(blocks: seq<nat>): set<nat>
    requires blocks != []
  { if |blocks| == 1 then {blocks[0]} else {blocks[0], blocks[1]} }

  /** No chunk of a chain holds more than a cluster. */
  lemma {:induction false} ChunkOfChain(bytes: seq<byte>, blocks: seq<nat>, data: seq<byte>, first: bool, stop: nat,
                                        written: nat, i: nat)
    requires ChainVia(bytes, blocks, data, first, stop, written) && i < |blocks|
    ensures blocks[i] + COMPLEX_SIZE <= |bytes| && ChunkSize(bytes, blocks[i]) <= CLUSTER_SIZE
    decreases |blocks|
  {
    if i > 0 {
      ChunkOfChain(bytes, blocks[1..], data[ChunkSize(bytes, blocks[0])..], false, stop,
                   written - ChunkSize(bytes, blocks[0]), i - 1);
    }
  }

  /** A chunk of a long value, and the block it is in. */
  lemma LongChunk(bytes: seq<byte>, st: State, blocks: seq<nat>, data: seq<byte>, spare: nat, kind: byte, i: nat)
    requires LongAt(bytes, st, blocks, data, spare, kind) && i < |blocks|
    ensures var o, n := blocks[i], SizeAt(bytes, blocks[i]);
            && o in st.used && o in st.extent && o + COMPLEX_SIZE <= |bytes| && COMPLEX_SIZE <= st.extent[o]
            && n == ChunkSize(bytes, o) && n <= CLUSTER_SIZE && n + COMPLEX_DATA <= st.extent[o] && bytes[o] == kind
    ensures forall j | 0 <= j < |blocks| && j != i :: blocks[j] != blocks[i]
  {
    hide ChainVia;
    assert blocks[i] in blocks;
    ChunkOfChain(bytes, blocks, data, true, spare, |data|, i);
  }

  lemma LongNotEmpty(bytes: seq<byte>, st: State, blocks: seq<nat>, data: seq<byte>, spare: nat, kind: byte)
    requires LongAt(bytes, st, blocks, data, spare, kind)
    ensures blocks != []
  {
  }

  lemma BuiltBins(st: State)
    requires Built(st)
    ensures |st.bins| == BIN_COUNT
  {
  }

  lemma FirstSizesFit(bytes: seq<byte>, st: State, blocks: seq<nat>, data: seq<byte>, spare: nat, kind: byte)
    requires LongAt(bytes, st, blocks, data, spare, kind)
    ensures var sizes := FirstSizes(bytes, blocks);
            && ChunkSizes(sizes) && |sizes| <= |blocks|
            && (forall i | 0 <= i < |sizes| :: blocks[i] in st.used && blocks[i] in st.extent
                                               && sizes[i] + COMPLEX_DATA <= st.extent[blocks[i]]
                                               && COMPLEX_SIZE <= st.extent[blocks[i]])
            && (|sizes| == 2 ==> blocks[0] != blocks[1])
  {
    hide LongAt;
    LongNotEmpty(bytes, st, blocks, data, spare, kind);
    LongChunk(bytes, st, blocks, data, spare, kind, 0);
    if |blocks| > 1 {
      LongChunk(bytes, st, blocks, data, spare, kind, 1);
    }
  }

  /** What the header of the first chunk says about the rest of the value. */
  lemma LongFollows(bytes: seq<byte>, st: State, blocks: seq<nat>, data: seq<byte>, spare: nat, kind: byte)
    requires Partitioned(st) && Tiled(st.extent, st.end) && LongAt(bytes, st, blocks, data, spare, kind)
    ensures blocks[0] + COMPLEX_SIZE <= |bytes|
    ensures var h := UnpackComplex(bytes[blocks[0]..blocks[0] + COMPLEX_SIZE]);
            && h.overall == |data| && h.chunk == SizeAt(bytes, blocks[0])
            && (h.chunk < h.overall <==> |blocks| > 1)
            && (|blocks| > 1 ==> h.sequel == blocks[1] != 0)
  {
    ChainFirst(bytes, blocks, data, true, spare, |data|);
    var n := ChunkSize(bytes, blocks[0]);
    if |blocks| > 1 {
      assert blocks[1] in blocks;
      ChunkOfChain(bytes, blocks[1..], data[n..], false, spare, |data| - n, 0);
      ChainFirst(bytes, blocks[1..], data[n..], false, spare, |data| - n);
    }
  }

  lemma SoundParts(bytes: seq<byte>, st: State)
    requires Sound(st) && Holds(bytes, st)
    ensures Built(st) && |st.bins| == BIN_COUNT && Partitioned(st) && Tiled(st.extent, st.end)
    ensures |bytes| < U64 ==> forall i | 0 <= i < BIN_COUNT :: st.bins[i] < U64
  {
  }

  // ------------------------------------------------------------------ one chunk is freed

  /** The device after a chunk has been freed is an image of the state after it. */
  lemma ChunkFreedOnDevice(bytes: seq<byte>, st: State, o: nat, n: nat)
    requires Built(st) && Holds(bytes, st) && |bytes| < U64 && forall i | 0 <= i < BIN_COUNT :: st.bins[i] < U64
    requires o in st.used && o in st.extent && COMPLEX_SIZE <= st.extent[o] && o + COMPLEX_SIZE <= |bytes|
    requires n == ChunkSize(bytes, o) && n + COMPLEX_DATA <= st.extent[o]
    ensures var st', bytes' := ChunkFreed(st, o, n), FreeChunkAt(bytes, o, st.bins[BinId(n)]);
            && Built(st') && Holds(bytes', st') && |bytes'| == |bytes| && bytes'[o] == EMPTY_COMPLEX
            && Kept(bytes, bytes', st.extent - {o})
            && (forall i | 0 <= i < BIN_COUNT :: st'.bins[i] < U64)
  {
    hide Kept, HoldsLive, HoldsFree, Tiled, Sized, UnpackComplex, BinId, ClassOfFreed, Splice, ComplexHeader.Pack;
    var h := FreedChunk(UnpackComplex(bytes[o..o + COMPLEX_SIZE]), st.bins[BinId(n)]);
    var bytes' := FreeChunkAt(bytes, o, st.bins[BinId(n)]);
    ChunkFreedBuilt(st, o, n);
    ChunkIsFreed(bytes, st, o, st.bins[BinId(n)]);
    OthersHold(bytes, bytes', st, o);
    SpliceAt(bytes, o, h.Pack());
    UnpackPackComplex(h);
    InOtherUse(st, o);
    assert st.live - {o} == st.live;
    AddFree(bytes', st.free, o, FreeComplex(st.bins[BinId(n)], n));
  }

  // ---------------------------------------------------------------- both chunks are freed

  /** After the first chunk has been freed, the others are as they were. */
  lemma OneFreed(bytes: seq<byte>, st: State, blocks: seq<nat>, data: seq<byte>, spare: nat, kind: byte)
    requires Built(st) && Holds(bytes, st) && |bytes| < U64 && forall i | 0 <= i < BIN_COUNT :: st.bins[i] < U64
    requires LongAt(bytes, st, blocks, data, spare, kind)
    ensures blocks[0] + COMPLEX_SIZE <= |bytes|
    ensures var o, n := blocks[0], SizeAt(bytes, blocks[0]);
            var st', bytes' := ChunkFreed(st, o, n), FreeChunkAt(bytes, o, st.bins[BinId(n)]);
            && Built(st') && Holds(bytes', st') && |bytes'| == |bytes| && bytes'[o] == EMPTY_COMPLEX
            && (forall i | 0 <= i < BIN_COUNT :: st'.bins[i] < U64)
            && Kept(bytes, bytes', st.extent - {o})
            && (|blocks| == 1 ==> FirstTwoFreed(bytes', blocks, kind))
            && (|blocks| > 1 ==> && blocks[1] in st'.used && blocks[1] in st'.extent && blocks[1] + COMPLEX_SIZE <= |bytes'|
                                 && ChunkSize(bytes', blocks[1]) == SizeAt(bytes, blocks[1]))
  {
    hide FreeChunkAt, Built, LongAt, Kept, Holds, BinId, ClassOfFreed, ChunkSize;
    LongNotEmpty(bytes, st, blocks, data, spare, kind);
    BuiltBins(st);
    var o, n := blocks[0], SizeAt(bytes, blocks[0]);
    LongChunk(bytes, st, blocks, data, spare, kind, 0);
    ChunkFreedOnDevice(bytes, st, o, n);
    if |blocks| > 1 {
      LongChunk(bytes, st, blocks, data, spare, kind, 1);
      KeptBlock(bytes, FreeChunkAt(bytes, o, st.bins[BinId(n)]), st.extent, o, blocks[1]);
      SameSize(bytes, FreeChunkAt(bytes, o, st.bins[BinId(n)]), blocks[1], st.extent[blocks[1]]);
    }
  }

  lemma KeptBlock(b0: seq<byte>, b1: seq<byte>, extent: map<nat, nat>, o: nat, p: nat)
    requires Kept(b0, b1, extent - {o}) && p in extent && p != o
    ensures SameBlock(b0, b1, p, extent[p])
  {
    assert p in extent - {o};
  }

  /** After the second one has been freed as well, the rest of the chain is still as it was. */
  lemma TwoFreed(b0: seq<byte>, b1: seq<byte>, st: State, st1: State, blocks: seq<nat>, data: seq<byte>, spare: nat,
                 kind: byte)
    requires LongAt(b0, st, blocks, data, spare, kind) && |blocks| > 1 && |b1| == |b0| < U64
    requires Built(st1) && Holds(b1, st1) && forall i | 0 <= i < BIN_COUNT :: st1.bins[i] < U64
    requires st1.extent == st.extent && blocks[1] in st1.used && Kept(b0, b1, st.extent - {blocks[0]})
    requires blocks[0] < |b1| && b1[blocks[0]] == EMPTY_COMPLEX
    requires blocks[1] + COMPLEX_SIZE <= |b1| && ChunkSize(b1, blocks[1]) == SizeAt(b0, blocks[1])
    ensures var n := SizeAt(b0, blocks[1]);
            var st2, b2 := ChunkFreed(st1, blocks[1], n), FreeChunkAt(b1, blocks[1], st1.bins[BinId(n)]);
            && Built(st2) && Holds(b2, st2) && |b2| == |b0| && FirstTwoFreed(b2, blocks, kind)
            && Kept(b0, b2, st.extent - {blocks[0], blocks[1]})
  {
    hide FreeChunkAt, Built, LongAt, Kept, SameBlock, Holds, BinId, ClassOfFreed;
    BuiltBins(st1);
    var n := SizeAt(b0, blocks[1]);
    var b2 := FreeChunkAt(b1, blocks[1], st1.bins[BinId(n)]);
    LongChunk(b0, st, blocks, data, spare, kind, 0);
    LongChunk(b0, st, blocks, data, spare, kind, 1);
    ChunkFreedOnDevice(b1, st1, blocks[1], n);
    KeptBoth(b0, b1, b2, st.extent, blocks[0], blocks[1]);
    KeptBlock(b1, b2, st.extent, blocks[1], blocks[0]);
    SameFirst(b1, b2, blocks[0], st.extent[blocks[0]]);
    forall i | 2 <= i < |blocks|
      ensures blocks[i] < |b2| && b2[blocks[i]] == kind
    {
      LongChunk(b0, st, blocks, data, spare, kind, i);
      KeptBlock(b0, b1, st.extent, blocks[0], blocks[i]);
      KeptBlock(b1, b2, st.extent, blocks[1], blocks[i]);
      SameFirst(b0, b1, blocks[i], st.extent[blocks[i]]);
      SameFirst(b1, b2, blocks[i], st.extent[blocks[i]]);
    }
  }

  lemma KeptBoth(b0: seq<byte>, b1: seq<byte>, b2: seq<byte>, extent: map<nat, nat>, o: nat, p: nat)
    requires Kept(b0, b1, extent - {o}) && Kept(b1, b2, extent - {p})
    ensures Kept(b0, b2, extent - {o, p})
  {
    forall q | q in extent - {o, p}
      ensures SameBlock(b0, b2, q, extent[q])
    {
      KeptBlock(b0, b1, extent, o, q);
      KeptBlock(b1, b2, extent, p, q);
      SameTrans(b0, b1, b2, q, extent[q]);
    }
  }

  /** Deleting a value leaves every other block in use alone. */
  lemma OthersInUse(bytes: seq<byte>, bytes': seq<byte>, st: State, st': State, gone: set<nat>)
    requires Partitioned(st) && Kept(bytes, bytes', st.extent - gone) && st'.extent == st.extent
    ensures BlocksKept(bytes, bytes', st, st', gone)
  {
    hide SameBlock;
    forall o | (o in st.live || o in st.used) && o !in gone
      ensures o in st.extent && SameBlock(bytes, bytes', o, st.extent[o])
    {
      assert o in st.extent - gone;
    }
  }
}
