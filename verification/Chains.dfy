/** Chains of chunks that are being written: what is on the device after some of the chunks. */
module Chains {
  import opened Bytes
  import opened Layout
  import opened Blocks
  import opened Image
  import opened DataReaderWriter

  /**
   * The blocks hold, one after the other, the first `written` bytes of `data` as chunks of a chain that continues at
   * `stop`; `first` tells whether the first of them starts the value. A chunk is only written while something remains,
   * but it may be empty.
   */
  ghost predicate ChainVia(bytes: seq<byte>, blocks: seq<nat>, data: seq<byte>, first: bool, stop: nat, written: nat)
    decreases |blocks|
  {
    if blocks == [] then written == 0
    else
      var o := blocks[0];
      && data != [] && o + COMPLEX_SIZE <= |bytes|
      && var n := ChunkSize(bytes, o);
      && n <= written <= |data|
      && ChunkAt(bytes, o, first, |data|, data[..n], if |blocks| == 1 then stop else blocks[1])
      && ChainVia(bytes, blocks[1..], data[n..], false, stop, written - n)
  }

  /** A chain whose chunks make up the whole value spells the value. */
  lemma ChainIsComplete(bytes: seq<byte>, blocks: seq<nat>, data: seq<byte>, first: bool, stop: nat)
    requires ChainVia(bytes, blocks, data, first, stop, |data|) && blocks != []
    ensures ChainAt(bytes, blocks[0], data, first)
  {
    CompleteInBlocks(bytes, blocks, data, first, stop);
  }

  lemma {:induction false} CompleteInBlocks(bytes: seq<byte>, blocks: seq<nat>, data: seq<byte>, first: bool, stop: nat)
    requires ChainVia(bytes, blocks, data, first, stop, |data|) && blocks != []
    ensures ChainIn(bytes, blocks[0], data, first, |blocks| - 1)
    decreases |blocks|
  {
    var n := ChunkSize(bytes, blocks[0]);
    if n < |data| {
      CompleteInBlocks(bytes, blocks[1..], data[n..], false, stop);
    }
  }

  /** The number of bytes the chunks of some blocks hold together. */
  ghost function ChunkSum(bytes: seq<byte>, blocks: seq<nat>): nat {
    if blocks == [] || blocks[0] + COMPLEX_SIZE > |bytes| then 0
    else ChunkSize(bytes, blocks[0]) + ChunkSum(bytes, blocks[1..])
  }

  /** The chunks of a chain hold exactly the bytes written so far, none of them twice. */
  lemma {:induction false} ChunksAddUp(bytes: seq<byte>, blocks: seq<nat>, data: seq<byte>, first: bool, stop: nat,
                                       written: nat)
    requires ChainVia(bytes, blocks, data, first, stop, written)
    ensures ChunkSum(bytes, blocks) == written <= |data|
    decreases |blocks|
  {
    if blocks != [] {
      var n := ChunkSize(bytes, blocks[0]);
      ChunksAddUp(bytes, blocks[1..], data[n..], false, stop, written - n);
    }
  }

  lemma ChunkSizeOf(bytes: seq<byte>, o: nat, first: bool, overall: nat, piece: seq<byte>, next: nat)
    requires ChunkAt(bytes, o, first, overall, piece, next)
    ensures o + COMPLEX_SIZE <= |bytes| && ChunkSize(bytes, o) == |piece|
  {
  }

  lemma ChunkSame(bytes: seq<byte>, bytes': seq<byte>, o: nat, size: nat, first: bool, overall: nat, piece: seq<byte>,
                  next: nat)
    requires ChunkAt(bytes, o, first, overall, piece, next) && SameBlock(bytes, bytes', o, size)
    requires COMPLEX_SIZE <= size && COMPLEX_DATA + |piece| <= size
    ensures ChunkAt(bytes', o, first, overall, piece, next) && ChunkSize(bytes', o) == ChunkSize(bytes, o)
  {
    SameShorter(bytes, bytes', o, size, COMPLEX_SIZE);
    SameShorter(bytes, bytes', o, size, COMPLEX_DATA + |piece|);
    var n := COMPLEX_DATA + |piece|;
    assert bytes'[o + COMPLEX_DATA..o + n] == bytes'[o..o + n][COMPLEX_DATA..];
    assert bytes[o + COMPLEX_DATA..o + n] == bytes[o..o + n][COMPLEX_DATA..];
  }

  /** A block that has not changed has the same chunk size. */
  lemma SameSize(b0: seq<byte>, b1: seq<byte>, o: nat, size: nat)
    requires SameBlock(b0, b1, o, size) && COMPLEX_SIZE <= size
    ensures ChunkSize(b1, o) == ChunkSize(b0, o)
  {
    SameShorter(b0, b1, o, size, COMPLEX_SIZE);
  }

  /** The blocks of a chain in the making own the bytes of their chunks. */
  ghost predicate ChunksFit(bytes: seq<byte>, blocks: seq<nat>, extent: map<nat, nat>) {
    forall o | o in blocks ::
      o in extent && o + COMPLEX_SIZE <= |bytes| && COMPLEX_SIZE <= extent[o] && COMPLEX_DATA + ChunkSize(bytes, o) <= extent[o]
  }

  /** A chain does not notice writes elsewhere. */
  lemma {:induction false} ChainKept(bytes: seq<byte>, bytes': seq<byte>, blocks: seq<nat>, extent: map<nat, nat>,
                                     data: seq<byte>, first: bool, stop: nat, written: nat)
    requires ChainVia(bytes, blocks, data, first, stop, written) && ChunksFit(bytes, blocks, extent)
    requires forall o | o in blocks :: o in extent && SameBlock(bytes, bytes', o, extent[o])
    ensures ChainVia(bytes', blocks, data, first, stop, written) && ChunksFit(bytes', blocks, extent)
    decreases |blocks|
  {
    hide ChunkAt, SameBlock, UnpackComplex, ChunkSize, Sequel;
    if blocks != [] {
      var o, n := blocks[0], ChunkSize(bytes, blocks[0]);
      assert forall p | p in blocks[1..] :: p in blocks;
      ChunkSame(bytes, bytes', o, extent[o], first, |data|, data[..n], if |blocks| == 1 then stop else blocks[1]);
      ChainKept(bytes, bytes', blocks[1..], extent, data[n..], false, stop, written - n);
      assert forall p | p in blocks :: p == o || p in blocks[1..];
    }
  }

  lemma SliceOfRest(data: seq<byte>, m: nat, from: nat, to: nat)
    requires m <= from <= to <= |data|
    ensures data[m..][from - m..to - m] == data[from..to]
  {
  }

  /** The first chunk of a chain, and the rest of the chain. */
  lemma ChainFirst(bytes: seq<byte>, blocks: seq<nat>, data: seq<byte>, first: bool, stop: nat, written: nat)
    requires ChainVia(bytes, blocks, data, first, stop, written) && blocks != []
    ensures blocks[0] + COMPLEX_SIZE <= |bytes| && data != []
    ensures var o, n := blocks[0], ChunkSize(bytes, blocks[0]);
            && n <= written <= |data|
            && ChunkAt(bytes, o, first, |data|, data[..n], if |blocks| == 1 then stop else blocks[1])
            && ChainVia(bytes, blocks[1..], data[n..], false, stop, written - n)
  {
  }

  lemma ChainPut(bytes: seq<byte>, o: nat, rest: seq<nat>, data: seq<byte>, first: bool, stop: nat, written: nat, n: nat)
    requires data != [] && n <= written <= |data| && ChunkAt(bytes, o, first, |data|, data[..n], if rest == [] then stop else rest[0])
    requires ChainVia(bytes, rest, data[n..], false, stop, written - n)
    ensures ChainVia(bytes, [o] + rest, data, first, stop, written)
  {
    hide ChunkAt, ChunkSize;
    ChunkSizeOf(bytes, o, first, |data|, data[..n], if rest == [] then stop else rest[0]);
    assert ([o] + rest)[1..] == rest;
  }

  lemma NoChain(bytes: seq<byte>, data: seq<byte>, first: bool, stop: nat, written: nat)
    ensures ChainVia(bytes, [], data, first, stop, written) <==> written == 0
  {
  }

  /** One more chunk at the end of a chain. */
  lemma {:induction false} ChainExtended(bytes: seq<byte>, blocks: seq<nat>, data: seq<byte>, first: bool, stop: nat,
                                         written: nat, n: nat, next: nat)
    requires ChainVia(bytes, blocks, data, first, stop, written) && written < |data| && written + n <= |data|
    requires ChunkAt(bytes, stop, first && blocks == [], |data| - written, data[written..written + n], next)
    ensures ChainVia(bytes, blocks + [stop], data, first, next, written + n)
    decreases |blocks|
  {
    hide ChunkAt, ChunkSize, ChainVia;
    if blocks == [] {
      NoChain(bytes, data, first, stop, written);
      NoChain(bytes, data[n..], false, next, 0);
      assert data[written..written + n] == data[..n];
      ChainPut(bytes, stop, [], data, first, next, n, n);
      assert [] + [stop] == [stop] + [];
    } else {
      ChainFirst(bytes, blocks, data, first, stop, written);
      var m := ChunkSize(bytes, blocks[0]);
      SliceOfRest(data, m, written, written + n);
      ChainExtended(bytes, blocks[1..], data[m..], false, stop, written - m, n, next);
      ChainPut(bytes, blocks[0], blocks[1..] + [stop], data, first, next, written + n, m);
      assert blocks + [stop] == [blocks[0]] + (blocks[1..] + [stop]);
    }
  }

  // ------------------------------------------------------------- one step of a writer

  /** All these blocks carry the type of the value. */
  ghost predicate KindsAt(bytes: seq<byte>, blocks: seq<nat>, kind: byte) {
    forall o | o in blocks :: o < |bytes| && bytes[o] == kind
  }

  /**
   * A writer has put the first `written` bytes of `data` into `blocks` and holds `stop` for the next chunk. Apart from
   * the blocks in use `before` it started, exactly these blocks are in use.
   */
  ghost predicate Writing(bytes: seq<byte>, st: State, blocks: seq<nat>, data: seq<byte>, stop: nat, written: nat,
                          kind: byte, before: set<nat>)
  {
    && written <= |data|
    && stop in st.used && stop in st.extent && stop !in blocks && stop !in before
    && st.used == before + (set o | o in blocks) + {stop}
    && (forall o | o in blocks :: o !in before)
    && (forall i, j | 0 <= i < j < |blocks| :: blocks[i] != blocks[j])
    && ChainVia(bytes, blocks, data, true, stop, written)
    && ChunksFit(bytes, blocks, st.extent)
    && KindsAt(bytes, blocks, kind)
  }

  /** The blocks hold all of `data`, as a chain of chunks of the given type that continues at `spare`. */
  ghost predicate LongAt(bytes: seq<byte>, st: State, blocks: seq<nat>, data: seq<byte>, spare: nat, kind: byte) {
    && blocks != [] && (forall o | o in blocks :: o in st.used && o in st.extent)
    && (forall i, j | 0 <= i < j < |blocks| :: blocks[i] != blocks[j])
    && ChainVia(bytes, blocks, data, true, spare, |data|)
    && ChunksFit(bytes, blocks, st.extent)
    && KindsAt(bytes, blocks, kind)
  }

  /** A writer that has come to the end leaves a long value. */
  lemma WrittenIsLong(bytes: seq<byte>, st: State, blocks: seq<nat>, data: seq<byte>, spare: nat, kind: byte,
                      before: set<nat>)
    requires Writing(bytes, st, blocks, data, spare, |data|, kind, before) && blocks != []
    ensures LongAt(bytes, st, blocks, data, spare, kind)
  {
    hide ChainVia, KindsAt;
  }

  /** A long value does not notice what happens in blocks that are not its own. */
  lemma LongKept(bytes: seq<byte>, bytes': seq<byte>, st: State, st': State, blocks: seq<nat>, data: seq<byte>,
                 spare: nat, kind: byte)
    requires LongAt(bytes, st, blocks, data, spare, kind)
    requires forall o | o in blocks ::
               o in st'.used && o in st'.extent && st'.extent[o] == st.extent[o] && SameBlock(bytes, bytes', o, st.extent[o])
    ensures LongAt(bytes', st', blocks, data, spare, kind)
  {
    hide ChainVia, SameBlock, ChunkSize;
    ChainKept(bytes, bytes', blocks, st.extent, data, true, spare, |data|);
    forall o | o in blocks
      ensures o < |bytes'| && bytes'[o] == kind
    {
      SameFirst(bytes, bytes', o, st.extent[o]);
    }
  }

  /** Block `o` is ready to take the next chunk of a value of which `rest` bytes remain. */
  ghost predicate Ready(bytes: seq<byte>, o: nat, extent: nat, rest: nat) {
    && o + extent <= |bytes| && COMPLEX_SIZE <= extent
    && var n := ChunkSize(bytes, o);
    && COMPLEX_DATA + (if n < rest then n else rest) <= extent
  }

  /** A block that is ready takes a chunk without touching any other block. */
  lemma ChunkInBlock(bytes: seq<byte>, st: State, o: nat, kind: byte, first: bool, next: nat, data: seq<byte>)
    requires Sound(st) && Holds(bytes, st) && |bytes| < U64 && o in st.used && o in st.extent
    requires Ready(bytes, o, st.extent[o], |data|) && 0 < |data| < U64 && next < U64
    ensures var n := ChunkSize(bytes, o);
            var w := if n < |data| then n else |data|;
            var bytes' := ChunkWritten(bytes, o, kind, first, next, data);
            && ChunkAt(bytes', o, first, |data|, data[..w], next) && bytes'[o] == kind
            && COMPLEX_DATA + w <= st.extent[o]
            && Kept(bytes, bytes', st.extent - {o}) && Holds(bytes', st) && |bytes'| == |bytes|
  {
    hide ChunkWritten, ChunkSize, ChunkAt, Partitioned, Sized, Linked, Tiled, LiveAt, FreeAt, Kept;
    var bytes' := ChunkWritten(bytes, o, kind, first, next, data);
    BlockInside(st.extent, |bytes|, o);
    ChunkIsWritten(bytes, o, kind, first, next, data, st.extent[o]);
    OutsideKept(bytes, bytes', st.extent, o);
    InOtherUse(st, o);
    OthersHold(bytes, bytes', st, o);
    assert st.live - {o} == st.live && st.free - {o} == st.free;
  }

  lemma InOtherUse(st: State, o: nat)
    requires Partitioned(st) && o in st.used
    ensures o !in st.live && o !in st.free && o in st.extent
  {
  }

  lemma BlockInside(extent: map<nat, nat>, end: nat, o: nat)
    requires Tiled(extent, end) && o in extent
    ensures DATA_START <= o && 0 < extent[o] <= CLUSTER_SIZE && o + extent[o] <= end
    ensures forall p | p in extent && p != o :: p + extent[p] <= o || o + extent[o] <= p
  {
  }

  lemma OutsideKept(bytes: seq<byte>, bytes': seq<byte>, extent: map<nat, nat>, o: nat)
    requires Tiled(extent, |bytes|) && o in extent && |bytes'| == |bytes|
    requires bytes'[..o] == bytes[..o] && bytes'[o + extent[o]..] == bytes[o + extent[o]..]
    ensures Kept(bytes, bytes', extent - {o})
  {
    BlockInside(extent, |bytes|, o);
    forall p | p in extent && p != o
      ensures SameBlock(bytes, bytes', p, extent[p])
    {
      BlockInside(extent, |bytes|, p);
      SameOutside(bytes, bytes', o, o + extent[o], p, extent[p]);
    }
  }

  /** What lies outside a range that has changed has not. */
  lemma SameOutside(bytes: seq<byte>, bytes': seq<byte>, from: nat, to: nat, p: nat, size: nat)
    requires from <= to <= |bytes| == |bytes'| && bytes'[..from] == bytes[..from] && bytes'[to..] == bytes[to..]
    requires p + size <= |bytes| && (p + size <= from || to <= p)
    ensures SameBlock(bytes, bytes', p, size)
  {
    if p + size <= from {
      assert bytes'[p..p + size] == bytes'[..from][p..p + size];
      assert bytes[p..p + size] == bytes[..from][p..p + size];
    } else {
      assert bytes == bytes[..to] + bytes[to..] && bytes' == bytes'[..to] + bytes'[to..];
      SliceRight(bytes[..to], bytes[to..], p - to, p - to + size);
      SliceRight(bytes'[..to], bytes'[to..], p - to, p - to + size);
    }
  }

  /** The state of the writer after the allocation of `next` and the write of one chunk. */
  lemma ChunkAdded(b0: seq<byte>, b1: seq<byte>, st0: State, st1: State, blocks: seq<nat>, data: seq<byte>, stop: nat,
                   written: nat, kind: byte, before: set<nat>, next: nat, n: nat)
    requires Writing(b0, st0, blocks, data, stop, written, kind, before) && written < |data| < U64
    requires before <= st0.used
    requires Sound(st1) && Holds(b1, st1) && |b1| < U64 && BlocksKept(b0, b1, st0, st1, {})
    requires st1.used == st0.used + {next} && next !in st0.used && next in st1.extent && next < U64
    requires stop in st1.extent && Ready(b0, stop, st1.extent[stop], |data| - written)
    requires n == ChunkSize(b0, stop)
    requires stop + COMPLEX_SIZE <= |b1|
    ensures ChunkSize(b1, stop) == n
    ensures var w := if n < |data| - written then n else |data| - written;
            var b2 := ChunkWritten(b1, stop, kind, blocks == [], next, data[written..]);
            && Writing(b2, st1, blocks + [stop], data, next, written + w, kind, before)
            && Holds(b2, st1) && |b2| == |b1|
            && Kept(b1, b2, st1.extent - {stop})
  {
    hide ChainVia, ChunksFit, ChunkAt, ChunkSize, Kept, Holds, Sound, Ready, BlocksKept, ChunkWritten;
    var rest := |data| - written;
    var w := if n < rest then n else rest;
    var b2 := ChunkWritten(b1, stop, kind, blocks == [], next, data[written..]);
    SameChunk(b0, b1, st0, st1, stop, rest);
    ChunkInBlock(b1, st1, stop, kind, blocks == [], next, data[written..]);
    WritingKept(b0, b1, b2, st0, st1, blocks, data, stop, written, kind, before);
    assert data[written..][..w] == data[written..written + w];
    ChainExtended(b2, blocks, data, true, stop, written, w, next);
    FitsMore(b2, blocks, st1.extent, stop, blocks == [], rest, data[written..written + w], next);
    NoRepeat(blocks, stop);
    assert st1.used == before + (set o | o in blocks + [stop]) + {next};
  }

  /** The block in hand has not been touched by the allocation of its successor. */
  lemma SameChunk(b0: seq<byte>, b1: seq<byte>, st0: State, st1: State, o: nat, rest: nat)
    requires BlocksKept(b0, b1, st0, st1, {}) && o in st0.used && o in st1.extent && Ready(b0, o, st1.extent[o], rest)
    ensures Ready(b1, o, st1.extent[o], rest) && ChunkSize(b1, o) == ChunkSize(b0, o)
  {
    SameShorter(b0, b1, o, st1.extent[o], COMPLEX_SIZE);
  }

  /** A writer does not notice an allocation that hands out nothing. */
  lemma WritingStays(b0: seq<byte>, b1: seq<byte>, st0: State, st1: State, blocks: seq<nat>, data: seq<byte>, stop: nat,
                     written: nat, kind: byte, before: set<nat>)
    requires Writing(b0, st0, blocks, data, stop, written, kind, before)
    requires BlocksKept(b0, b1, st0, st1, {}) && st1.used == st0.used
    ensures Writing(b1, st1, blocks, data, stop, written, kind, before)
  {
    hide ChainVia, SameBlock, ChunkSize;
    ChainKept(b0, b1, blocks, st0.extent, data, true, stop, written);
    forall o | o in blocks
      ensures o in st1.extent && st1.extent[o] == st0.extent[o] && o < |b1| && b1[o] == kind
    {
      assert o in st0.used;
      SameFirst(b0, b1, o, st0.extent[o]);
    }
  }

  /** The chunks written so far survive an allocation and a write into the block in hand. */
  lemma WritingKept(b0: seq<byte>, b1: seq<byte>, b2: seq<byte>, st0: State, st1: State, blocks: seq<nat>,
                    data: seq<byte>, stop: nat, written: nat, kind: byte, before: set<nat>)
    requires Writing(b0, st0, blocks, data, stop, written, kind, before)
    requires BlocksKept(b0, b1, st0, st1, {}) && Kept(b1, b2, st1.extent - {stop})
    ensures ChainVia(b2, blocks, data, true, stop, written) && ChunksFit(b2, blocks, st1.extent)
    ensures KindsAt(b2, blocks, kind)
  {
    hide ChainVia, ChunkAt, SameBlock, ChunkSize;
    forall o | o in blocks
      ensures o in st1.extent && o in st0.extent && st1.extent[o] == st0.extent[o]
      ensures SameBlock(b0, b2, o, st0.extent[o])
    {
      assert o in st0.used && o in st1.extent - {stop};
      SameTrans(b0, b1, b2, o, st0.extent[o]);
    }
    ChainKept(b0, b2, blocks, st0.extent, data, true, stop, written);
    forall o | o in blocks
      ensures o < |b2| && b2[o] == kind
    {
      SameFirst(b0, b2, o, st0.extent[o]);
    }
  }

  lemma SameTrans(b0: seq<byte>, b1: seq<byte>, b2: seq<byte>, o: nat, size: nat)
    requires SameBlock(b0, b1, o, size) && SameBlock(b1, b2, o, size)
    ensures SameBlock(b0, b2, o, size)
  {
  }

  lemma SameFirst(b0: seq<byte>, b1: seq<byte>, o: nat, size: nat)
    requires SameBlock(b0, b1, o, size) && size > 0
    ensures o < |b0| && o < |b1| && b1[o] == b0[o]
  {
    assert b1[o..o + size][0] == b0[o..o + size][0];
  }

  lemma FitsMore(bytes: seq<byte>, blocks: seq<nat>, extent: map<nat, nat>, o: nat, first: bool, overall: nat,
                 piece: seq<byte>, next: nat)
    requires ChunksFit(bytes, blocks, extent) && ChunkAt(bytes, o, first, overall, piece, next)
    requires o in extent && COMPLEX_SIZE <= extent[o] && COMPLEX_DATA + |piece| <= extent[o]
    ensures ChunksFit(bytes, blocks + [o], extent)
  {
    ChunkSizeOf(bytes, o, first, overall, piece, next);
  }

  /** A value that is complete has a first chunk. */
  lemma WritingNotEmpty(bytes: seq<byte>, st: State, blocks: seq<nat>, data: seq<byte>, stop: nat, kind: byte,
                        before: set<nat>)
    requires Writing(bytes, st, blocks, data, stop, |data|, kind, before) && data != []
    ensures blocks != []
  {
  }

  lemma NoRepeat(blocks: seq<nat>, o: nat)
    requires (forall i, j | 0 <= i < j < |blocks| :: blocks[i] != blocks[j]) && o !in blocks
    ensures forall i, j | 0 <= i < j < |blocks + [o]| :: (blocks + [o])[i] != (blocks + [o])[j]
  {
  }

  lemma WritingStarts(bytes: seq<byte>, st: State, data: seq<byte>, o: nat, kind: byte, before: set<nat>)
    requires st.used == before + {o} && o !in before && o in st.extent
    ensures Writing(bytes, st, [], data, o, 0, kind, before)
  {
  }

  /** Another block in use does not notice the chunk, and less data fits where more did. */
  lemma OtherReady(b1: seq<byte>, b2: seq<byte>, st: State, stop: nat, o: nat, more: nat, rest: nat)
    requires Kept(b1, b2, st.extent - {stop}) && o in st.extent && o != stop && COMPLEX_SIZE <= st.extent[o]
    requires Ready(b1, o, st.extent[o], more) && rest <= more
    ensures Ready(b2, o, st.extent[o], rest) && ChunkSize(b2, o) == ChunkSize(b1, o)
  {
    assert o in st.extent - {stop};
    SameShorter(b1, b2, o, st.extent[o], COMPLEX_SIZE);
  }

  /** What a block about to take a chunk allows the writer to do. */
  lemma ReadyInRange(bytes: seq<byte>, o: nat, extent: nat, rest: nat)
    requires Ready(bytes, o, extent, rest)
    ensures o + COMPLEX_SIZE <= |bytes|
    ensures var n := ChunkSize(bytes, o);
            o + COMPLEX_DATA + (if n < rest then n else rest) <= |bytes|
  {
  }
}
