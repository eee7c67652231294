/** A run in which a short value runs over the block behind its own: a value of 3751 bytes, then one of 24. */
module ShortOverrun {
  import opened Bytes
  import opened Layout
  import opened Freelist
  import opened Blocks
  import opened Allocation
  import opened DataReaderWriter
  import opened EntriesAllocator
  import opened EntrySteps
  import opened NewVolume
  import opened ShortValues

  /** A free simple block lies right in front of the one at 15484. */
  ghost predicate Simple49(st: State) {
    15435 in st.free && st.free[15435] == Free8(19275) && 15435 in st.extent && 15435 + st.extent[15435] == 15484
  }

  /**
   * The allocations of the run. The long value gets the block at 15484, and the block at 11644 is its spare one. Each cut
   * leaves 17 bytes, which become simple blocks of 49 bytes in class 2. The short value is handed the second of these,
   * and the block at 7804 is its spare one.
   */
  lemma Allocations() returns (chunk: State, spare: State, short: State, last: State)
    ensures Allocated(New(), chunk, 3791, 15484, 10) && Allocated(chunk, spare, 3791, 11644, 10)
    ensures |spare.bins| == BIN_COUNT && spare.bins[2] == 15435 && Simple49(spare) && Sound(spare)
    ensures spare.used == {15484, 11644}
    ensures Allocated(spare, short, 64, 15435, 2) && Allocated(short, last, 64, 7804, 10)
    ensures last.used == {15484, 11644, 15435, 7804} && 15435 in last.extent && last.extent[15435] == 49
  {
    hide Sound, New, Allocated, PopBin, Allocate;
    chunk, spare := ForLong();
    short := TakeShort(spare);
    PopsAt(short.bins, 64, 10);
    CutCluster(short, 7804, 3964, 3808, 64);
    last := Allocate(short, 10, 10, 64);
  }

  lemma ForLong() returns (chunk: State, spare: State)
    ensures Allocated(New(), chunk, 3791, 15484, 10) && Allocated(chunk, spare, 3791, 11644, 10)
    ensures spare.bins == [0, 0, 15435, 0, 0, 0, 0, 0, 0, 0, 7804] && Simple49(spare) && Sound(spare)
    ensures spare.used == {15484, 11644} && Cluster(spare, 7804, 3964) && Cluster(spare, 3964, 124)
  {
    NewIs();
    hide Sound, New, Allocated, PopBin, Allocate;
    PopsAt(New().bins, 3791, 10);
    CutCluster(New(), 15484, 11644, 3808, 3791);
    chunk := Allocate(New(), 10, 10, 3791);
    assert BinId(17) == 2;
    PopsAt(chunk.bins, 3791, 10);
    CutCluster(chunk, 11644, 7804, 3808, 3791);
    spare := Allocate(chunk, 10, 10, 3791);
  }

  /** Taking the simple block: the one it links to goes to class 1. */
  lemma TakeShort(st: State) returns (r: State)
    requires Sound(st) && st.bins == [0, 0, 15435, 0, 0, 0, 0, 0, 0, 0, 7804]
    requires 15435 in st.free && st.free[15435] == Free8(19275)
    ensures Allocated(st, r, 64, 15435, 2) && Sound(r) && r.used == st.used + {15435}
    ensures r.bins == [0, 19275, 0, 0, 0, 0, 0, 0, 0, 0, 7804] && r.free == st.free - {15435} && r.extent == st.extent
  {
    hide Sound, PopBin;
    PopsAt(st.bins, 64, 2);
    r := Allocate(st, 2, 1, 64);
    LinkOfSimple(st, 15435);
    hide LinkBin;
    assert Allocated(st, r, 64, 15435, 2);
    hide Allocated;
    AllocatedSound(st, r, 64, 15435, 2);
    assert st.bins[2 := 0][1 := 19275] == [0, 19275, 0, 0, 0, 0, 0, 0, 0, 0, 7804];
  }

  lemma LinkOfSimple(st: State, o: nat)
    requires o in st.free && st.free[o].Free8?
    ensures LinkBin(st, st.free[o], 1)
  {
  }

  /** The device after the growth and the writes of the long value: two simple headers, then the chunk. */
  function LongStored(bytes: seq<byte>, left: seq<byte>, left': seq<byte>, data: seq<byte>): seq<byte>
    requires |bytes| == 19324 && |left| == |left'| == SIMPLE8_SIZE
  {
    ChunkWritten(Splice(Splice(bytes, 19275, left), 15435, left'), 15484, BLOB, true, 11644, data)
  }

  /** And after those of the short one: the header of what is left of its spare block, then the chunk. */
  function ShortStored(bytes: seq<byte>, left: seq<byte>, text: seq<byte>): seq<byte>
    requires |bytes| == 19324 && |left| == COMPLEX_SIZE
  { ChunkWritten(Splice(bytes, 7868, left), 15435, STRING, true, 7804, text) }

  /**
   * The long value can be read before the short one is stored. Afterwards, the first seven bytes of its header are the
   * last seven of the short value.
   */
  lemma ShortValueOverruns(bytes: seq<byte>, left: seq<byte>, left': seq<byte>, left'': seq<byte>, data: seq<byte>,
                           text: seq<byte>)
    requires |bytes| == 19324 && ClustersFrom(bytes, DATA_START, 5, 0)
    requires |left| == |left'| == SIMPLE8_SIZE && |left''| == COMPLEX_SIZE && |data| == 3751 && |text| == 24
    ensures var long := LongStored(bytes, left, left', data);
            && |long| == 19324 && ChainAt(long, 15484, data, true) && long[15484] == BLOB
            && 24 <= ChunkSize(long, 15435)
            && var short := ShortStored(long, left'', text);
            |short| == 19324 && short[15484..15491] == text[17..24]
  {
    hide ClustersFrom, ChainAt, ChunkWritten, ChunkSize, Splice, ChunkAt, FillerLeft;
    var b2 := Splice(Splice(bytes, 19275, left), 15435, left');
    ClusterSplit(bytes, left, left');
    ChunkIsWritten(b2, 15484, BLOB, true, 11644, data, 3791);
    var long := LongStored(bytes, left, left', data);
    OneChunk(long, 15484, data, 11644);
    StillFilled(b2, long);
    var b4 := Splice(long, 7868, left'');
    FilledFurther(long, left'');
    FilledChunk(long);
    FilledChunk(b4);
    var short := ShortStored(long, left'', text);
    WrittenLength(b4, 15435, STRING, true, 7804, text);
    var overrun := short[15484..15491];
    forall i | 0 <= i < 7
      ensures overrun[i] == text[17 + i]
    {
      DataLands(b4, 15435, STRING, true, 7804, text, 17 + i);
    }
    assert overrun == text[17..24];
  }

  /** What the growth has put where the simple block at 15435 would have its chunk size. */
  ghost predicate FillerLeft(bytes: seq<byte>) {
    |bytes| == 19324 && forall i | 15451 <= i < 15459 :: bytes[i] == FILLER
  }

  lemma ClusterSplit(bytes: seq<byte>, left: seq<byte>, left': seq<byte>)
    requires |bytes| == 19324 && ClustersFrom(bytes, DATA_START, 5, 0) && |left| == |left'| == SIMPLE8_SIZE
    ensures var b2 := Splice(Splice(bytes, 19275, left), 15435, left');
            FillerLeft(b2) && ChunkSize(b2, 15484) == 3808
  {
    hide UnpackComplex;
    assert ClusterFrom(bytes, DATA_START, 3, 0) && ClusterFrom(bytes, DATA_START, 4, 0);
    FreeHeader(bytes, 15484, FreeComplex(LinkFrom(0, DATA_START, 4), 3808));
    var b1 := Splice(bytes, 19275, left);
    var b2 := Splice(b1, 15435, left');
    SpliceElsewhere(bytes, 19275, left, 15484, 15524);
    SpliceElsewhere(b1, 15435, left', 15484, 15524);
    assert b2[15484..15524] == bytes[15484..15524];
  }

  lemma StillFilled(bytes: seq<byte>, bytes': seq<byte>)
    requires FillerLeft(bytes) && |bytes'| == |bytes| && bytes'[..15484] == bytes[..15484]
    ensures FillerLeft(bytes')
  {
    forall i | 15451 <= i < 15459
      ensures bytes'[i] == FILLER
    {
      assert bytes'[i] == bytes'[..15484][i] == bytes[..15484][i];
    }
  }

  lemma FilledFurther(bytes: seq<byte>, left: seq<byte>)
    requires FillerLeft(bytes) && |left| == COMPLEX_SIZE
    ensures FillerLeft(Splice(bytes, 7868, left))
  {
  }

  lemma FilledChunk(bytes: seq<byte>)
    requires FillerLeft(bytes)
    ensures 24 <= ChunkSize(bytes, 15435)
  {
    var field := bytes[15435..15475][16..24];
    assert field[0] == bytes[15451];
    assert Decode(field) >= field[0];
  }

  /** A chunk that holds the whole value is a chain. */
  lemma OneChunk(bytes: seq<byte>, o: nat, data: seq<byte>, next: nat)
    requires data != [] && ChunkAt(bytes, o, true, |data|, data[..|data|], next)
    ensures ChainAt(bytes, o, data, true)
  {
    assert data[..|data|] == data;
    assert ChainIn(bytes, o, data, true, 0);
  }

  lemma WrittenLength(bytes: seq<byte>, o: nat, kind: byte, first: bool, next: nat, data: seq<byte>)
    requires o + COMPLEX_SIZE <= |bytes| && o + COMPLEX_DATA + |data| <= |bytes|
    ensures |ChunkWritten(bytes, o, kind, first, next, data)| == |bytes|
  {
  }
}
