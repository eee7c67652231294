/** Values of at most 24 bytes: when they keep within the simple block they may be handed, and a run in which one does not. */
module ShortValues {
  import opened Bytes
  import opened Layout
  import opened Freelist
  import opened Blocks
  import opened Image
  import opened DataReaderWriter
  import opened Chains
  import opened Segregation
  import opened EntrySteps

  /** Only block `o` has changed, and the device has kept its length. */
  ghost predicate OnlyInside(bytes: seq<byte>, bytes': seq<byte>, extent: map<nat, nat>, o: nat) {
    |bytes'| == |bytes| && Kept(bytes, bytes', extent - {o})
  }

  /** Does writing any chunk of `length` bytes of data into block `o` change that block only? */
  ghost predicate StaysInside(bytes: seq<byte>, extent: map<nat, nat>, o: nat, kind: byte, first: bool, next: nat,
                              length: nat)
    requires o + COMPLEX_SIZE <= |bytes|
  {
    forall data: seq<byte> | |data| == length ::
      OnlyInside(bytes, ChunkWritten(bytes, o, kind, first, next, data), extent, o)
  }

  /**
   * A chunk keeps within its block exactly if the block owns as much behind its header as the header promises, or as
   * there is to write.
   */
  lemma InsideExactly(bytes: seq<byte>, extent: map<nat, nat>, o: nat, kind: byte, first: bool, next: nat, length: nat)
    requires Tiled(extent, |bytes|) && o in extent && COMPLEX_SIZE <= extent[o] && |bytes| < U64
    requires o + COMPLEX_SIZE <= |bytes| && length < U64 && next < U64
    ensures var n := ChunkSize(bytes, o);
            StaysInside(bytes, extent, o, kind, first, next, length)
            <==> COMPLEX_DATA + (if n < length then n else length) <= extent[o]
  {
    hide ChunkSize, StaysInside, Tiled;
    var n := ChunkSize(bytes, o);
    if COMPLEX_DATA + (if n < length then n else length) <= extent[o] {
      FittingStays(bytes, extent, o, kind, first, next, length);
    } else {
      OverrunLeaves(bytes, extent, o, kind, first, next, length);
    }
  }

  lemma FittingStays(bytes: seq<byte>, extent: map<nat, nat>, o: nat, kind: byte, first: bool, next: nat, length: nat)
    requires Tiled(extent, |bytes|) && o in extent && COMPLEX_SIZE <= extent[o] && |bytes| < U64
    requires o + COMPLEX_SIZE <= |bytes| && length < U64 && next < U64
    requires var n := ChunkSize(bytes, o); COMPLEX_DATA + (if n < length then n else length) <= extent[o]
    ensures StaysInside(bytes, extent, o, kind, first, next, length)
  {
    hide ChunkWritten, ChunkSize, Kept, Tiled, ChunkAt;
    BlockInside(extent, |bytes|, o);
    forall data: seq<byte> | |data| == length
      ensures OnlyInside(bytes, ChunkWritten(bytes, o, kind, first, next, data), extent, o)
    {
      ChunkIsWritten(bytes, o, kind, first, next, data, extent[o]);
      OutsideKept(bytes, ChunkWritten(bytes, o, kind, first, next, data), extent, o);
    }
  }

  /** Data that runs over its block changes the first byte behind it, or the length of the device. */
  lemma OverrunLeaves(bytes: seq<byte>, extent: map<nat, nat>, o: nat, kind: byte, first: bool, next: nat, length: nat)
    requires Tiled(extent, |bytes|) && o in extent && COMPLEX_SIZE <= extent[o] && o + COMPLEX_SIZE <= |bytes|
    requires var n := ChunkSize(bytes, o); extent[o] < COMPLEX_DATA + if n < length then n else length
    ensures !StaysInside(bytes, extent, o, kind, first, next, length)
  {
    hide ChunkWritten, ChunkSize, Kept, Tiled;
    BlockInside(extent, |bytes|, o);
    var e := extent[o];
    var at := e - COMPLEX_DATA;
    var other: byte := if o + e < |bytes| && bytes[o + e] == 0 then 1 else 0;
    var data: seq<byte> := seq(length, i => if i == at then other else 0);
    var bytes' := ChunkWritten(bytes, o, kind, first, next, data);
    DataLands(bytes, o, kind, first, next, data, at);
    if |bytes'| == |bytes| {
      BehindBlock(extent, |bytes|, o);
      OtherFirst(bytes, bytes', extent, o);
    }
    assert !OnlyInside(bytes, bytes', extent, o);
  }

  /** Where each byte of the data goes. */
  lemma DataLands(bytes: seq<byte>, o: nat, kind: byte, first: bool, next: nat, data: seq<byte>, at: nat)
    requires o + COMPLEX_SIZE <= |bytes| && at < |data| && at < ChunkSize(bytes, o)
    ensures var bytes' := ChunkWritten(bytes, o, kind, first, next, data);
            o + COMPLEX_DATA + at < |bytes'| && bytes'[o + COMPLEX_DATA + at] == data[at]
  {
    hide Splice;
    var h := ChunkHeader(UnpackComplex(bytes[o..o + COMPLEX_SIZE]), kind, first, next, |data|);
    var b, piece := Splice(bytes, o, h.Pack()), data[..h.chunk];
    SpliceAt(b, o + COMPLEX_DATA, piece);
    assert Splice(b, o + COMPLEX_DATA, piece)[o + COMPLEX_DATA..o + COMPLEX_DATA + |piece|][at] == data[at];
  }

  /** What follows a block that does not end the device is another block. */
  lemma BehindBlock(extent: map<nat, nat>, end: nat, o: nat)
    requires Tiled(extent, end) && o in extent
    ensures o + extent[o] == end || (o + extent[o] in extent && 0 < extent[o + extent[o]])
  {
    assert Abuts(extent, end, o);
  }

  lemma OtherFirst(bytes: seq<byte>, bytes': seq<byte>, extent: map<nat, nat>, o: nat)
    requires o in extent && |bytes'| == |bytes| && 0 < extent[o]
    requires o + extent[o] < |bytes| ==> o + extent[o] in extent && 0 < extent[o + extent[o]]
    requires o + extent[o] < |bytes| ==> bytes'[o + extent[o]] != bytes[o + extent[o]]
    ensures o + extent[o] < |bytes| ==> !OnlyInside(bytes, bytes', extent, o)
  {
    if o + extent[o] < |bytes| {
      var p := o + extent[o];
      assert p in extent - {o};
      FirstByte(bytes, bytes', p, extent[p]);
    }
  }

  lemma FirstByte(bytes: seq<byte>, bytes': seq<byte>, p: nat, size: nat)
    requires 0 < size && p < |bytes| == |bytes'|
    ensures SameBlock(bytes, bytes', p, size) ==> bytes'[p] == bytes[p]
  {
    if SameBlock(bytes, bytes', p, size) {
      SameFirst(bytes, bytes', p, size);
    }
  }

  /**
   * While the lists are segregated, a value of at most 24 bytes is handed the simple block that class 2 starts with, if it
   * does. It leaves everything else alone exactly if it fits as `ShortFits` says; then, by `WriteComplexType`, it is also
   * stored intact.
   */
  lemma ShortIntactExactly(bytes: seq<byte>, st: State, length: nat, kind: byte, next: nat)
    requires Sound(st) && Holds(bytes, st) && SimpleTwo(st) && 0 < length <= 24 && |bytes| < U64 && next < U64
    ensures PopBin(st.bins, length + COMPLEX_SIZE) == 2
    ensures var o := st.bins[2];
            o + COMPLEX_SIZE <= |bytes|
            && (ShortFits(bytes, st, length) <==> StaysInside(bytes, st.extent, o, kind, true, next, length))
  {
    hide ChunkSize;
    TwoIsWide(st);
    ServedByTwo(st.bins, length + COMPLEX_SIZE);
    TiledOnDevice(bytes, st);
    hide Sound, Holds, StaysInside, Tiled;
    InsideExactly(bytes, st.extent, st.bins[2], kind, true, next, length);
  }

  lemma TiledOnDevice(bytes: seq<byte>, st: State)
    requires Sound(st) && Holds(bytes, st)
    ensures Tiled(st.extent, |bytes|) && forall o | o in st.extent :: o + st.extent[o] <= |bytes|
  {
  }
}
