/** Growing the volume: new clusters are written in batches and linked into one list. */
module EntriesAllocator {
  import opened Bytes
  import opened Errors
  import opened Layout
  import opened Blocks
  import opened Image
  import opened Blanks
  import opened Serialization
  import opened DataReaderWriter
  import opened Device

  /** Clusters per batch: as many default clusters as fit in 5 * 0x1000 bytes, 20480 / 3840. */
  const BATCH: nat := 5
  const BATCH_SIZE: nat := BATCH * CLUSTER_SIZE
  const FILLER: byte := 0xAA

  /** The header of a fresh cluster; its state byte is never set. */
  function ClusterHeader(state: byte, next: nat): ComplexHeader {
    ComplexHeader(EMPTY_COMPLEX, state, 0, 0, CLUSTER_SIZE - COMPLEX_DATA, CLUSTER_SIZE - COMPLEX_DATA, 0, next)
  }

  /** `count` clusters are the requested ones, rounded up to whole batches. */
  predicate RoundedUp(count: nat, requested: int) {
    count % BATCH == 0 && count - BATCH < requested <= count
  }

  /** The requested number of clusters, rounded up to whole batches. */
  function Rounded(requested: nat): (count: nat)
    ensures RoundedUp(count, requested)
  { (requested + BATCH - 1) / BATCH * BATCH }

  /** The first growth of a volume asks for five clusters. */
  lemma FirstGrowth()
    ensures (5.0 * 1.1).Floor == 5 && Rounded(5) == 5
  {
  }

  /** While fewer clusters are written than requested, at least one more batch is to come. */
  lemma BatchToCome(written: nat, batches: nat, requested: nat)
    requires written == BATCH * batches && written < requested
    ensures written + BATCH <= Rounded(requested)
  {
    assert Rounded(requested) == BATCH * ((requested + BATCH - 1) / BATCH);
  }

  lemma RoundedIs(count: nat, requested: nat)
    requires RoundedUp(count, requested)
    ensures Rounded(requested) == count
  {
  }

  /** The device cannot take another batch of clusters. */
  ghost predicate OutOfRoom(device: TestDevice)
    reads device
  { device.capacity < |device.storage| + BATCH_SIZE }

  /** What the `i`-th of the clusters appended at `start` links to when the growth is handed the offset `free`. */
  function LinkFrom(free: nat, start: nat, i: nat): nat {
    if free != 0 then free + CLUSTER_SIZE * i else ClusterLink(start, i)
  }

  /** Behind its header, a new cluster is filled with a fixed byte. */
  ghost predicate FillerAt(bytes: seq<byte>, at: nat) {
    at + CLUSTER_SIZE <= |bytes| && forall b | at + COMPLEX_SIZE <= b < at + CLUSTER_SIZE :: bytes[b] == FILLER
  }

  ghost predicate ClusterFrom(bytes: seq<byte>, start: nat, i: nat, free: nat) {
    var at := start + CLUSTER_SIZE * i;
    && FreeAt(bytes, at, FreeComplex(LinkFrom(free, start, i), CLUSTER_SIZE - COMPLEX_DATA))
    && BlankAt(bytes, at) && FillerAt(bytes, at)
  }

  ghost predicate ClustersFrom(bytes: seq<byte>, start: nat, count: nat, free: nat) {
    forall i: nat | i < count :: ClusterFrom(bytes, start, i, free)
  }

  /** Without a free block to start with, the clusters are linked from the last one down to the first. */
  lemma FromNone(bytes: seq<byte>, start: nat, count: nat)
    requires ClustersFrom(bytes, start, count, 0)
    ensures ClustersAt(bytes, start, count) && LinkFrom(0, start, count) == ClusterLink(start, count)
  {
    forall i: nat | i < count
      ensures ClusterAt(bytes, start, i)
    {
      assert ClusterFrom(bytes, start, i, 0);
    }
  }

  /**
   * Each cluster links to the one before it, and the offset returned is that of the last one, exactly if there was no
   * free block to start with or it was the cluster at the very end of the volume.
   */
  lemma LinkedExactly(free: nat, start: nat, count: nat)
    requires 0 < count
    ensures (forall i: nat | 0 < i <= count :: LinkFrom(free, start, i) == start + CLUSTER_SIZE * (i - 1))
            <==> free == 0 || free + CLUSTER_SIZE == start
  {
    if free != 0 && free + CLUSTER_SIZE != start {
      assert LinkFrom(free, start, 1) != start + CLUSTER_SIZE * (1 - 1);
    }
  }

  class PVEntriesAllocator {
    var deviceEnd: nat
    /** How many clusters the last growth asked for; each growth asks for a tenth more. */
    var lastCount: real

    ghost predicate Valid()
      reads this
    {
      lastCount >= 5.0
    }

    /**
     * Will the device take the clusters that the next growth appends: a tenth more than the last growth asked for, in
     * whole batches?
     */
    ghost predicate CanGrow(device: TestDevice)
      reads this, device
    { Valid() && |device.storage| + CLUSTER_SIZE * Rounded((lastCount * 1.1).Floor) <= device.capacity }

    /** Each growth appends at least one batch. */
    lemma NoRoomForBatch(device: TestDevice)
      requires OutOfRoom(device)
      ensures !CanGrow(device)
    {
      assert Valid() ==> 5 <= (lastCount * 1.1).Floor;
    }

    constructor ()
      ensures Valid() && lastCount == 5.0
    {
      deviceEnd := *;
      lastCount := BATCH as real;
    }

    /**
     * Appends the requested number of clusters, rounded up to whole batches, and returns the offset that one more
     * cluster would link to. Without a free block to start with, this is the last new cluster: the head of a list that
     * visits every new cluster once, in decreasing order of offsets.
     */
    method ExpandPV(rw: PVDeviceDataReaderWriter, freeEntryOffset: nat) returns (r: Result<nat>, ghost count: nat)
      requires Valid() && rw.device.Valid()
      requires freeEntryOffset < deviceEnd == |rw.device.storage|
      modifies this, rw.device
      ensures Valid() && rw.device.Valid()
      ensures lastCount == old(lastCount) * 1.1
      ensures deviceEnd == |rw.device.storage| == old(deviceEnd) + CLUSTER_SIZE * count
      ensures rw.device.storage[..old(deviceEnd)] == old(rw.device.storage)
      ensures ClustersFrom(rw.device.storage, old(deviceEnd), count, freeEntryOffset)
      ensures r.Ok? ==> RoundedUp(count, lastCount.Floor) && 0 < count
                        && r.value == LinkFrom(freeEntryOffset, old(deviceEnd), count)
      ensures r.Ok? <==> old(|rw.device.storage|) + CLUSTER_SIZE * Rounded((old(lastCount) * 1.1).Floor) <= rw.device.capacity
      ensures r.Ok? ==> BATCH <= count
      ensures r.Err? ==> r.error == UnknownExceptionType && OutOfRoom(rw.device) && !CanGrow(rw.device)
    {
      hide HeaderInBuffer, FillerBuffer, ClusterFrom, ClustersFrom, LinkFrom, RoundedUp, Splice;
      NoClusters(rw.device.storage, deviceEnd, freeEntryOffset);
      ghost var start := deviceEnd;
      ghost var bytes := rw.device.storage;
      lastCount := lastCount * 1.1;
      var allocateCount := lastCount.Floor;
      var newClusters: seq<byte> := seq(BATCH_SIZE, _ => FILLER);
      AllFiller(newClusters);
      var offset := freeEntryOffset;

      var written: nat := 0;
      ghost var batches: nat := 0;
      while written < allocateCount
        invariant written == BATCH * batches && written - BATCH < allocateCount
        invariant lastCount == old(lastCount) * 1.1 && allocateCount == lastCount.Floor
        invariant rw.device.Valid() && |newClusters| == BATCH_SIZE && FillerBuffer(newClusters)
        invariant deviceEnd == |rw.device.storage| == start + CLUSTER_SIZE * written
        invariant rw.device.storage[..start] == bytes
        invariant ClustersFrom(rw.device.storage, start, written, freeEntryOffset)
        invariant offset == LinkFrom(freeEntryOffset, start, written)
        decreases allocateCount - written
      {
        var cursor := 0;
        for id := 0 to BATCH
          invariant |newClusters| == BATCH_SIZE && FillerBuffer(newClusters) && cursor == CLUSTER_SIZE * id
          invariant offset == LinkFrom(freeEntryOffset, start, written + id)
          invariant forall i: nat | i < id :: HeaderInBuffer(newClusters, i, start, written, freeEntryOffset)
          modifies {}
        {
          var state: byte := *;
          LinkNext(start, written, id, freeEntryOffset);
          var header := ClusterHeader(state, offset);
          newClusters := BufferCluster(newClusters, id, header, start, written, freeEntryOffset);
          cursor := cursor + CLUSTER_SIZE;
          offset := if offset != 0 then offset + CLUSTER_SIZE else deviceEnd;
        }
        ghost var before := rw.device.storage;
        var w := rw.RawWrite(deviceEnd, newClusters);
        if w.Err? {
          BatchToCome(written, batches, allocateCount);
          NoRoomForBatch(rw.device);
          return Err(UnknownExceptionType), written;
        }
        BatchWritten(before, newClusters, start, written, freeEntryOffset);
        SpliceElsewhere(before, deviceEnd, newClusters, 0, start);
        deviceEnd := deviceEnd + w.value;
        written, batches := written + BATCH, batches + 1;
      }
      AllWritten(written, batches, allocateCount);
      RoundedIs(written, allocateCount);
      return Ok(offset), written;
    }
  }

  lemma NoClusters(bytes: seq<byte>, start: nat, free: nat)
    ensures ClustersFrom(bytes, start, 0, free) && LinkFrom(free, start, 0) == free
  {
  }

  /** How the offset that is linked to moves on. */
  lemma LinkNext(start: nat, written: nat, id: nat, free: nat)
    requires 0 < start
    ensures var offset := LinkFrom(free, start, written + id);
            && LinkFrom(free, start, written + (id + 1)) == (if offset != 0 then offset + CLUSTER_SIZE
                                                          else start + CLUSTER_SIZE * written)
  {
  }

  lemma AllWritten(written: nat, batches: nat, requested: int)
    requires written == BATCH * batches && written - BATCH < requested <= written && 5 <= requested
    ensures RoundedUp(written, requested) && BATCH <= written
  {
  }

  /** Cluster `i` of a batch buffer starts with the header of the `written + i`-th cluster appended at `start`. */
  ghost predicate HeaderInBuffer(buffer: seq<byte>, i: nat, start: nat, written: nat, free: nat) {
    CLUSTER_SIZE * i + COMPLEX_SIZE <= |buffer|
    && buffer[CLUSTER_SIZE * i..CLUSTER_SIZE * i + COMPLEX_SIZE]
       == ClusterHeader(buffer[CLUSTER_SIZE * i + 1], LinkFrom(free, start, written + i)).Pack()
  }

  /** The clusters of a batch buffer are filled behind their headers. */
  ghost predicate FillerBuffer(buffer: seq<byte>) {
    forall i: nat | i < BATCH :: FillerAt(buffer, CLUSTER_SIZE * i)
  }

  lemma AllFiller(buffer: seq<byte>)
    requires |buffer| == BATCH_SIZE && forall b | 0 <= b < |buffer| :: buffer[b] == FILLER
    ensures FillerBuffer(buffer)
  {
  }

  /** A header does not reach what is filled. */
  lemma FillerStays(buffer: seq<byte>, id: nat, image: seq<byte>)
    requires |buffer| == BATCH_SIZE && id < BATCH && |image| == COMPLEX_SIZE && FillerBuffer(buffer)
    ensures FillerBuffer(Splice(buffer, CLUSTER_SIZE * id, image))
  {
    var buffer' := Splice(buffer, CLUSTER_SIZE * id, image);
    forall i: nat | i < BATCH
      ensures FillerAt(buffer', CLUSTER_SIZE * i)
    {
      assert FillerAt(buffer, CLUSTER_SIZE * i);
    }
  }

  /** Puts one header into the batch buffer. */
  method BufferCluster(buffer: seq<byte>, id: nat, header: ComplexHeader, ghost start: nat, ghost written: nat,
                       ghost free: nat)
    returns (buffer': seq<byte>)
    requires |buffer| == BATCH_SIZE && id < BATCH && FillerBuffer(buffer)
    requires header == ClusterHeader(header.state, LinkFrom(free, start, written + id))
    requires forall i: nat | i < id :: HeaderInBuffer(buffer, i, start, written, free)
    ensures |buffer'| == BATCH_SIZE && FillerBuffer(buffer')
    ensures forall i: nat | i < id + 1 :: HeaderInBuffer(buffer', i, start, written, free)
  {
    var cursor := CLUSTER_SIZE * id;
    var saved := SaveAsBytes(buffer, cursor, header.Pack());
    buffer' := saved.0;
    FillerStays(buffer, id, header.Pack());
    forall i: nat | i < id + 1
      ensures HeaderInBuffer(buffer', i, start, written, free)
    {
      HeaderBuffered(buffer, id, header, start, written, free, i);
    }
  }

  lemma StateByte(h: ComplexHeader)
    ensures h.Pack()[1] == h.state
  {
  }

  lemma HeaderBuffered(buffer: seq<byte>, id: nat, header: ComplexHeader, start: nat, written: nat, free: nat, i: nat)
    requires |buffer| == BATCH_SIZE && id < BATCH && i <= id
    requires header == ClusterHeader(header.state, LinkFrom(free, start, written + id))
    requires i < id ==> HeaderInBuffer(buffer, i, start, written, free)
    ensures HeaderInBuffer(Splice(buffer, CLUSTER_SIZE * id, header.Pack()), i, start, written, free)
  {
    hide ComplexHeader.Pack, LinkFrom;
    StateByte(header);
    var image := header.Pack();
    var cursor := CLUSTER_SIZE * id;
    var buffer' := Splice(buffer, cursor, image);
    var at := CLUSTER_SIZE * i;
    if i < id {
      SpliceElsewhere(buffer, cursor, image, at, at + COMPLEX_SIZE);
    } else {
      SpliceAt(buffer, cursor, image);
    }
    assert buffer'[at + 1] == buffer'[at..at + COMPLEX_SIZE][1];
  }

  /** Appending a full batch buffer extends the list of clusters on the device. */
  lemma BatchWritten(bytes: seq<byte>, buffer: seq<byte>, start: nat, written: nat, free: nat)
    requires |bytes| == start + CLUSTER_SIZE * written && |buffer| == BATCH_SIZE && |bytes| + |buffer| < U64 && (free == 0 || free < start)
    requires ClustersFrom(bytes, start, written, free)
    requires forall i: nat | i < BATCH :: HeaderInBuffer(buffer, i, start, written, free)
    requires FillerBuffer(buffer)
    ensures ClustersFrom(Splice(bytes, |bytes|, buffer), start, written + BATCH, free)
  {
    hide Splice, ClusterFrom, HeaderInBuffer, LinkFrom, ClusterHeader;
    SpliceAtEnd(bytes, buffer);
    forall i: nat | i < written + BATCH
      ensures ClusterFrom(bytes + buffer, start, i, free)
    {
      if i < written {
        ClusterStays(bytes, buffer, start, i, free);
      } else {
        var j := i - written;
        ClusterOfBuffer(bytes, buffer, start, written, free, j);
      }
    }
  }

  lemma SpliceAtEnd(bytes: seq<byte>, buffer: seq<byte>)
    ensures Splice(bytes, |bytes|, buffer) == bytes + buffer
  {
  }

  lemma ClusterStays(bytes: seq<byte>, buffer: seq<byte>, start: nat, i: nat, free: nat)
    requires ClusterFrom(bytes, start, i, free)
    ensures ClusterFrom(bytes + buffer, start, i, free)
  {
    hide UnpackComplex, LinkFrom;
    SliceLeft(bytes, buffer, start + CLUSTER_SIZE * i, start + CLUSTER_SIZE * i + COMPLEX_SIZE);
    assert FillerAt(bytes + buffer, start + CLUSTER_SIZE * i);
  }

  lemma FillerBehind(bytes: seq<byte>, buffer: seq<byte>, at: nat)
    requires FillerAt(buffer, at)
    ensures FillerAt(bytes + buffer, |bytes| + at)
  {
  }

  lemma ClusterOfBuffer(bytes: seq<byte>, buffer: seq<byte>, start: nat, written: nat, free: nat, j: nat)
    requires |bytes| == start + CLUSTER_SIZE * written && |bytes| + |buffer| < U64 && (free == 0 || free < start)
    requires HeaderInBuffer(buffer, j, start, written, free) && FillerAt(buffer, CLUSTER_SIZE * j)
    ensures ClusterFrom(bytes + buffer, start, written + j, free)
  {
    hide UnpackComplex, ComplexHeader.Pack;
    FillerBehind(bytes, buffer, CLUSTER_SIZE * j);
    SliceRight(bytes, buffer, CLUSTER_SIZE * j, CLUSTER_SIZE * j + COMPLEX_SIZE);
    UnpackPackComplex(ClusterHeader(buffer[CLUSTER_SIZE * j + 1], LinkFrom(free, start, written + j)));
  }
}
