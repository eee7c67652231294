/** Writing a long value over any supply of free blocks, wherever they come from. */
module ChunkSupply {
  import opened Bytes
  import opened Errors
  import opened Layout
  import opened Image
  import opened DataReaderWriter
  import opened Chains

  /** A free block at `o` that owns `extent` bytes: its header names a capacity, and it is large enough for both. */
  ghost predicate Offers(bytes: seq<byte>, o: nat, extent: nat) {
    && o + extent <= |bytes| && COMPLEX_SIZE <= extent
    && 0 < ChunkSize(bytes, o) <= CLUSTER_SIZE - COMPLEX_DATA && ChunkSize(bytes, o) + COMPLEX_DATA <= extent
  }

  ghost predicate Disjoint(extent: map<nat, nat>, o: nat, p: nat)
    requires o in extent && p in extent
  { o + extent[o] <= p || p + extent[p] <= o }

  ghost predicate AllOffer(bytes: seq<byte>, blocks: seq<nat>, extent: map<nat, nat>) {
    forall o | o in blocks :: o in extent && Offers(bytes, o, extent[o])
  }

  ghost predicate Separate(blocks: seq<nat>, extent: map<nat, nat>) {
    forall i, j | 0 <= i < j < |blocks| ::
      blocks[i] in extent && blocks[j] in extent && Disjoint(extent, blocks[i], blocks[j])
  }

  /** Free blocks that do not overlap. */
  ghost predicate Supply(bytes: seq<byte>, blocks: seq<nat>, extent: map<nat, nat>) {
    AllOffer(bytes, blocks, extent) && Separate(blocks, extent)
  }

  /** Does byte `b` belong to one of the blocks? */
  ghost predicate Within(blocks: seq<nat>, extent: map<nat, nat>, b: nat) {
    exists o | o in blocks && o in extent :: o <= b < o + extent[o]
  }

  /** Where the chain continues behind the first `i` blocks. */
  function Next(blocks: seq<nat>, i: nat): nat {
    if i < |blocks| then blocks[i] else 0
  }

  /** The state of the writer: `written` bytes are in the first `i` blocks, and nothing else has changed. */
  ghost predicate Filled(bytes: seq<byte>, bytes': seq<byte>, blocks: seq<nat>, extent: map<nat, nat>, data: seq<byte>,
                         i: nat, written: nat)
  {
    && i <= |blocks| && written <= |data| && |bytes'| == |bytes|
    && ChainVia(bytes', blocks[..i], data, true, Next(blocks, i), written)
    && ChunksFit(bytes', blocks[..i], extent) && (forall o | o in blocks[..i] :: o in extent && o + extent[o] <= |bytes'|)
    && |data| - written <= ChunkSum(bytes', blocks[i..])
    && AllOffer(bytes', blocks[i..], extent) && Separate(blocks, extent)
    && forall b | 0 <= b < |bytes| && !Within(blocks[..i], extent, b) :: bytes'[b] == bytes[b]
  }

  /**
   * Writes a value over the blocks, each chunk linked to the next block, until nothing remains, and reads it back. It
   * reads back as itself unless it is longer than the format allows. The chunks add up to the value, and no byte
   * outside the blocks used has changed.
   */
  method WriteOver(rw: PVDeviceDataReaderWriter, kind: byte, data: seq<byte>, blocks: seq<nat>,
                   ghost extent: map<nat, nat>)
    returns (r: Result<seq<byte>>, used: nat)
    requires rw.device.Valid() && rw.clusterSize == CLUSTER_SIZE && 0 < |data| < U64
    requires Supply(rw.device.storage, blocks, extent) && |data| <= ChunkSum(rw.device.storage, blocks)
    modifies rw.device
    ensures 0 < used <= |blocks| && |rw.device.storage| == old(|rw.device.storage|)
    ensures ChainAt(rw.device.storage, blocks[0], data, true)
    ensures ChunkSum(rw.device.storage, blocks[..used]) == |data|
    ensures r == if |data| <= MAXIMUM_TYPE_SIZE then Ok(data) else Err(CorruptedHeaderError)
    ensures forall b | 0 <= b < |rw.device.storage| && !Within(blocks[..used], extent, b) ::
              rw.device.storage[b] == old(rw.device.storage)[b]
  {
    hide Filled, Supply, ChainVia, ChainAt, Within, ChunkSum, BeginsAt;
    ghost var bytes := rw.device.storage;
    FilledStarts(bytes, blocks, extent, data);
    used := 0;
    var overallWritten := 0;
    while overallWritten < |data|
      invariant rw.device.Valid() && Filled(bytes, rw.device.storage, blocks, extent, data, used, overallWritten)
      invariant overallWritten <= |data| && (used == 0 <==> overallWritten == 0)
      decreases |data| - overallWritten
    {
      FilledNext(bytes, rw.device.storage, blocks, extent, data, used, overallWritten, kind);
      var next := Next(blocks, used + 1);
      var written := rw.WriteComplexType(blocks[used], kind, used == 0, next, data[overallWritten..]);
      overallWritten := overallWritten + written.value;
      used := used + 1;
    }
    FilledEnds(bytes, rw.device.storage, blocks, extent, data, used);
    r := rw.ReadComplexType(blocks[0], data);
  }

  lemma FilledStarts(bytes: seq<byte>, blocks: seq<nat>, extent: map<nat, nat>, data: seq<byte>)
    requires Supply(bytes, blocks, extent) && |data| <= ChunkSum(bytes, blocks)
    ensures Filled(bytes, bytes, blocks, extent, data, 0, 0)
  {
    assert blocks[..0] == [] && blocks[0..] == blocks;
    NoChain(bytes, data, true, Next(blocks, 0), 0);
  }

  /** One chunk more. */
  lemma FilledNext(bytes: seq<byte>, b0: seq<byte>, blocks: seq<nat>, extent: map<nat, nat>, data: seq<byte>, i: nat,
                   written: nat, kind: byte)
    requires Filled(bytes, b0, blocks, extent, data, i, written) && written < |data| < U64 && |b0| < U64
    requires i == 0 <==> written == 0
    ensures i < |blocks| && blocks[i] + COMPLEX_SIZE <= |b0|
    ensures var o, rest, n := blocks[i], |data| - written, ChunkSize(b0, blocks[i]);
            var w := if n < rest then n else rest;
            var b1 := ChunkWritten(b0, o, kind, i == 0, Next(blocks, i + 1), data[written..]);
            0 < w && o + COMPLEX_DATA + w <= |b0| && Filled(bytes, b1, blocks, extent, data, i + 1, written + w)
  {
    hide Filled, ChunkWritten, ChunkAt, ChunkSize, Next;
    FilledHead(bytes, b0, blocks, extent, data, i, written);
    var o, n, rest := blocks[i], ChunkSize(b0, blocks[i]), data[written..];
    var w := if n < |rest| then n else |rest|;
    ChunkIsWritten(b0, o, kind, i == 0, Next(blocks, i + 1), rest, extent[o]);
    FirstOfRest(data, written, w);
    FilledMore(bytes, b0, ChunkWritten(b0, o, kind, i == 0, Next(blocks, i + 1), rest), blocks, extent, data, i, written, w);
  }

  lemma FirstOfRest(data: seq<byte>, from: nat, w: nat)
    requires from + w <= |data|
    ensures data[from..][..w] == data[from..from + w]
  {
  }

  /** The block for the next chunk. */
  lemma FilledHead(bytes: seq<byte>, b0: seq<byte>, blocks: seq<nat>, extent: map<nat, nat>, data: seq<byte>, i: nat,
                   written: nat)
    requires Filled(bytes, b0, blocks, extent, data, i, written) && written < |data| && |b0| < U64
    ensures i < |blocks| && blocks[i] in extent && |b0| == |bytes| && written < |data| && Next(blocks, i + 1) < U64
    ensures var o, e := blocks[i], extent[blocks[i]];
            && o + e <= |b0| && COMPLEX_SIZE <= e
            && 0 < ChunkSize(b0, o) <= CLUSTER_SIZE - COMPLEX_DATA && ChunkSize(b0, o) + COMPLEX_DATA <= e
  {
    hide ChainVia, ChunkSum, ChunkSize, Within, AllOffer, Separate, ChunksFit;
    SupplyHead(b0, blocks, extent, i, |data| - written);
  }

  /** The state after the chunk has been written. */
  lemma FilledMore(bytes: seq<byte>, b0: seq<byte>, b1: seq<byte>, blocks: seq<nat>, extent: map<nat, nat>,
                   data: seq<byte>, i: nat, written: nat, w: nat)
    requires Filled(bytes, b0, blocks, extent, data, i, written) && (i == 0 <==> written == 0)
    requires i < |blocks| && blocks[i] in extent && written < |data| && |b1| == |b0|
    requires blocks[i] + extent[blocks[i]] <= |b0| && COMPLEX_SIZE <= extent[blocks[i]]
    requires w == if ChunkSize(b0, blocks[i]) < |data| - written then ChunkSize(b0, blocks[i]) else |data| - written
    requires COMPLEX_DATA + w <= extent[blocks[i]]
    requires ChunkAt(b1, blocks[i], i == 0, |data| - written, data[written..written + w], Next(blocks, i + 1))
    requires b1[..blocks[i]] == b0[..blocks[i]]
    requires b1[blocks[i] + extent[blocks[i]]..] == b0[blocks[i] + extent[blocks[i]]..]
    ensures Filled(bytes, b1, blocks, extent, data, i + 1, written + w)
  {
    hide ChainVia, ChunkAt, ChunkSum, ChunkSize, Within, AllOffer, Separate, ChunksFit, SameBlock;
    EarlierKept(b0, b1, blocks, extent, i);
    ChainGrows(b0, b1, blocks, extent, data, i, written, w);
    LaterKept(b0, b1, blocks, extent, i);
    OutsideStill(bytes, b0, b1, blocks, extent, i);
  }

  lemma ChainGrows(b0: seq<byte>, b1: seq<byte>, blocks: seq<nat>, extent: map<nat, nat>, data: seq<byte>, i: nat,
                   written: nat, w: nat)
    requires i < |blocks| && written + w <= |data| && written < |data| && |b1| == |b0| && (i == 0 <==> written == 0)
    requires ChainVia(b0, blocks[..i], data, true, blocks[i], written) && ChunksFit(b0, blocks[..i], extent)
    requires forall o | o in blocks[..i] :: o in extent && o + extent[o] <= |b0| && SameBlock(b0, b1, o, extent[o])
    requires ChunkAt(b1, blocks[i], i == 0, |data| - written, data[written..written + w], Next(blocks, i + 1))
    requires blocks[i] in extent && COMPLEX_SIZE <= extent[blocks[i]] && COMPLEX_DATA + w <= extent[blocks[i]]
    requires blocks[i] + extent[blocks[i]] <= |b1|
    ensures ChainVia(b1, blocks[..i + 1], data, true, Next(blocks, i + 1), written + w)
    ensures ChunksFit(b1, blocks[..i + 1], extent)
    ensures forall o | o in blocks[..i + 1] :: o in extent && o + extent[o] <= |b1|
  {
    hide ChainVia, ChunkAt, ChunksFit, SameBlock;
    var o, next := blocks[i], Next(blocks, i + 1);
    ChainKept(b0, b1, blocks[..i], extent, data, true, o, written);
    ChainExtended(b1, blocks[..i], data, true, o, written, w, next);
    FitsMore(b1, blocks[..i], extent, o, i == 0, |data| - written, data[written..written + w], next);
    assert blocks[..i + 1] == blocks[..i] + [o] && (blocks[..i] == [] <==> i == 0);
  }

  /** While something remains, there is a block for it, and a link to the next one fits into its header. */
  lemma SupplyHead(bytes: seq<byte>, blocks: seq<nat>, extent: map<nat, nat>, i: nat, rest: nat)
    requires i <= |blocks| && 0 < rest <= ChunkSum(bytes, blocks[i..]) && AllOffer(bytes, blocks[i..], extent)
    requires |bytes| < U64
    ensures i < |blocks| && blocks[i] in extent && Offers(bytes, blocks[i], extent[blocks[i]])
    ensures Next(blocks, i + 1) < U64
  {
    hide ChunkSize;
    NotEmptied(bytes, blocks[i..]);
    assert blocks[i..][0] == blocks[i];
    if i + 1 < |blocks| {
      assert blocks[i..][1] == blocks[i + 1] && blocks[i + 1] in blocks[i..];
    }
  }

  lemma NotEmptied(bytes: seq<byte>, blocks: seq<nat>)
    ensures 0 < ChunkSum(bytes, blocks) ==> blocks != []
  {
  }

  /** The blocks filled before do not notice a write into the next one. */
  lemma EarlierKept(b0: seq<byte>, b1: seq<byte>, blocks: seq<nat>, extent: map<nat, nat>, i: nat)
    requires i < |blocks| && Separate(blocks, extent) && blocks[i] in extent && ChunksFit(b0, blocks[..i], extent)
    requires blocks[i] + extent[blocks[i]] <= |b0| == |b1|
    requires b1[..blocks[i]] == b0[..blocks[i]]
    requires b1[blocks[i] + extent[blocks[i]]..] == b0[blocks[i] + extent[blocks[i]]..]
    requires forall o | o in blocks[..i] :: o in extent && o + extent[o] <= |b0|
    ensures forall o | o in blocks[..i] :: o in extent && SameBlock(b0, b1, o, extent[o])
  {
    hide SameBlock;
    forall o | o in blocks[..i]
      ensures o in extent && SameBlock(b0, b1, o, extent[o])
    {
      var j :| 0 <= j < i && blocks[..i][j] == o;
      assert Disjoint(extent, blocks[j], blocks[i]);
      SameOutside(b0, b1, blocks[i], blocks[i] + extent[blocks[i]], o, extent[o]);
    }
  }

  /** Nor do the blocks that follow; their capacities still suffice for what remains. */
  lemma LaterKept(b0: seq<byte>, b1: seq<byte>, blocks: seq<nat>, extent: map<nat, nat>, i: nat)
    requires i < |blocks| && Separate(blocks, extent) && AllOffer(b0, blocks[i..], extent)
    requires blocks[i] in extent && blocks[i] + extent[blocks[i]] <= |b0| == |b1| && blocks[i] + COMPLEX_SIZE <= |b0|
    requires b1[..blocks[i]] == b0[..blocks[i]]
    requires b1[blocks[i] + extent[blocks[i]]..] == b0[blocks[i] + extent[blocks[i]]..]
    ensures AllOffer(b1, blocks[i + 1..], extent)
    ensures ChunkSum(b0, blocks[i..]) == ChunkSize(b0, blocks[i]) + ChunkSum(b1, blocks[i + 1..])
  {
    hide ChunkSize;
    var rest := blocks[i + 1..];
    forall o | o in rest
      ensures o in extent && Offers(b0, o, extent[o]) && SameBlock(b0, b1, o, extent[o])
    {
      var j :| 0 <= j < |rest| && rest[j] == o;
      assert blocks[i..][j + 1] == o && blocks[i + 1 + j] == o;
      assert Disjoint(extent, blocks[i], blocks[i + 1 + j]);
      SameOutside(b0, b1, blocks[i], blocks[i] + extent[blocks[i]], o, extent[o]);
    }
    forall o | o in rest
      ensures Offers(b1, o, extent[o]) && ChunkSize(b1, o) == ChunkSize(b0, o)
    {
      SameSize(b0, b1, o, extent[o]);
    }
    assert blocks[i..][0] == blocks[i] && blocks[i..][1..] == rest;
    SameSum(b0, b1, rest);
  }

  lemma {:induction false} SameSum(b0: seq<byte>, b1: seq<byte>, blocks: seq<nat>)
    requires |b0| == |b1|
    requires forall o | o in blocks :: o + COMPLEX_SIZE <= |b0| && ChunkSize(b1, o) == ChunkSize(b0, o)
    ensures ChunkSum(b1, blocks) == ChunkSum(b0, blocks)
  {
    if blocks != [] {
      SameSum(b0, b1, blocks[1..]);
    }
  }

  lemma OutsideStill(bytes: seq<byte>, b0: seq<byte>, b1: seq<byte>, blocks: seq<nat>, extent: map<nat, nat>, i: nat)
    requires i < |blocks| && blocks[i] in extent && blocks[i] + extent[blocks[i]] <= |b0| == |b1| == |bytes|
    requires forall b | 0 <= b < |bytes| && !Within(blocks[..i], extent, b) :: b0[b] == bytes[b]
    requires b1[..blocks[i]] == b0[..blocks[i]]
    requires b1[blocks[i] + extent[blocks[i]]..] == b0[blocks[i] + extent[blocks[i]]..]
    ensures forall b | 0 <= b < |bytes| && !Within(blocks[..i + 1], extent, b) :: b1[b] == bytes[b]
  {
    var o, e := blocks[i], blocks[i] + extent[blocks[i]];
    forall b | 0 <= b < |bytes| && !Within(blocks[..i + 1], extent, b)
      ensures b1[b] == bytes[b]
    {
      assert blocks[..i + 1] == blocks[..i] + [o];
      assert o in blocks[..i + 1];
      assert !Within(blocks[..i], extent, b);
      if b < o {
        assert b1[b] == b1[..o][b] && b0[b] == b0[..o][b];
      } else {
        assert e <= b && b1[b] == b1[e..][b - e] && b0[b] == b0[e..][b - e];
      }
    }
  }

  lemma FilledEnds(bytes: seq<byte>, bytes': seq<byte>, blocks: seq<nat>, extent: map<nat, nat>, data: seq<byte>,
                   used: nat)
    requires Filled(bytes, bytes', blocks, extent, data, used, |data|) && 0 < used
    ensures used <= |blocks| && |bytes'| == |bytes|
    ensures ChainAt(bytes', blocks[0], data, true) && ChunkSum(bytes', blocks[..used]) == |data|
    ensures blocks[0] + COMPLEX_SIZE <= |bytes'| && BeginsAt(bytes', blocks[0])
    ensures forall b | 0 <= b < |bytes| && !Within(blocks[..used], extent, b) :: bytes'[b] == bytes[b]
  {
    hide ChainVia, ChainAt, ChunkSum, Within;
    ChainIsComplete(bytes', blocks[..used], data, true, Next(blocks, used));
    StartsOnDevice(bytes', blocks[0], data);
    ChunksAddUp(bytes', blocks[..used], data, true, Next(blocks, used), |data|);
  }
}
