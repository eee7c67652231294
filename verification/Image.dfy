/** When a byte string is an image of a block state, and what writes do to it. */
module Image {
  import opened Bytes
  import opened Layout
  import opened Blocks

  ghost predicate LiveAt(bytes: seq<byte>, o: nat, h: SimpleHeader) {
    h.Valid() && o + h.Size() <= |bytes| && bytes[o..o + h.Size()] == h.Pack()
  }

  function HeaderSize(f: Free): nat {
    match f
    case Free4(_) => SIMPLE4_SIZE
    case Free8(_) => SIMPLE8_SIZE
    case FreeComplex(_, _) => COMPLEX_SIZE
  }

  /** The packed header of a free block. */
  ghost predicate FreeImage(data: seq<byte>, f: Free)
    requires |data| == HeaderSize(f)
  {
    match f
    case Free4(next) => UnpackSimple(data).kind == EMPTY4 && UnpackSimple(data).NextFree() == next
    case Free8(next) => UnpackSimple(data).kind == EMPTY8 && UnpackSimple(data).NextFree() == next
    case FreeComplex(next, size) =>
      var h := UnpackComplex(data);
      h.kind == EMPTY_COMPLEX && h.overall == h.chunk == size && h.next == next
  }

  ghost predicate FreeAt(bytes: seq<byte>, o: nat, f: Free) {
    o + HeaderSize(f) <= |bytes| && FreeImage(bytes[o..o + HeaderSize(f)], f)
  }

  /** Where the type, the link and the size of a free block lie. */
  lemma FreeBlockBytes(bytes: seq<byte>, o: nat, f: Free)
    requires FreeAt(bytes, o, f)
    ensures match f
            case Free4(next) => o + 12 <= |bytes| && bytes[o] == 13 && Decode(bytes[o + 4..o + 12]) == next
            case Free8(next) => o + 16 <= |bytes| && bytes[o] == 14 && Decode(bytes[o + 4..o + 12]) == next
            case FreeComplex(next, size) =>
              && o + 40 <= |bytes| && bytes[o] == 15 && Decode(bytes[o + 32..o + 40]) == next
              && Decode(bytes[o + 8..o + 16]) == Decode(bytes[o + 16..o + 24]) == size
  {
    hide Decode;
    var n := HeaderSize(f);
    if f.FreeComplex? {
      SliceOfSlice(bytes, o, o + n, 8, 16);
      SliceOfSlice(bytes, o, o + n, 16, 24);
      SliceOfSlice(bytes, o, o + n, 32, 40);
    } else {
      SliceOfSlice(bytes, o, o + n, 4, n);
      SliceOfSlice(bytes, o + 4, o + n, 0, 8);
    }
  }

  ghost predicate HoldsLive(bytes: seq<byte>, live: map<nat, SimpleHeader>) {
    forall o | o in live :: LiveAt(bytes, o, live[o])
  }

  ghost predicate HoldsFree(bytes: seq<byte>, free: map<nat, Free>) {
    forall o | o in free :: FreeAt(bytes, o, free[o])
  }

  /** The device holds exactly the volume described by the state. */
  ghost predicate Holds(bytes: seq<byte>, st: State) {
    |bytes| == st.end && HoldsLive(bytes, st.live) && HoldsFree(bytes, st.free)
  }

  /** The first `size` bytes of block `o` are the same in both images. */
  ghost predicate SameBlock(bytes: seq<byte>, bytes': seq<byte>, o: nat, size: nat) {
    o + size <= |bytes| && o + size <= |bytes'| && bytes'[o..o + size] == bytes[o..o + size]
  }

  /** Every block of `extent` has the same bytes in both images. */
  ghost predicate Kept(bytes: seq<byte>, bytes': seq<byte>, extent: map<nat, nat>) {
    forall o | o in extent :: SameBlock(bytes, bytes', o, extent[o])
  }

  /** Every block there was is still there, perhaps shortened, and what is left of it has kept its bytes. */
  ghost predicate KeptOld(bytes: seq<byte>, bytes': seq<byte>, extent: map<nat, nat>, extent': map<nat, nat>) {
    forall o | o in extent :: o in extent' && extent'[o] <= extent[o] && SameBlock(bytes, bytes', o, extent'[o])
  }

  /** Every block in use, apart from those named, is where it was and has kept its bytes. */
  ghost predicate BlocksKept(bytes: seq<byte>, bytes': seq<byte>, st: State, st': State, except: set<nat>) {
    forall o | (o in st.live || o in st.used) && o !in except ::
      && o in st.extent && o in st'.extent && st'.extent[o] == st.extent[o]
      && SameBlock(bytes, bytes', o, st.extent[o])
  }

  lemma SameShorter(bytes: seq<byte>, bytes': seq<byte>, o: nat, size: nat, k: nat)
    requires SameBlock(bytes, bytes', o, size) && k <= size
    ensures SameBlock(bytes, bytes', o, k)
  {
    assert bytes'[o..o + k] == bytes'[o..o + size][..k];
    assert bytes[o..o + k] == bytes[o..o + size][..k];
  }

  lemma LiveKept(bytes: seq<byte>, bytes': seq<byte>, o: nat, size: nat, h: SimpleHeader)
    requires LiveAt(bytes, o, h) && SameBlock(bytes, bytes', o, size) && h.Size() <= size
    ensures LiveAt(bytes', o, h)
  {
    SameShorter(bytes, bytes', o, size, h.Size());
  }

  lemma FreeKept(bytes: seq<byte>, bytes': seq<byte>, o: nat, size: nat, f: Free)
    requires FreeAt(bytes, o, f) && SameBlock(bytes, bytes', o, size) && FreeSized(f, size)
    ensures FreeAt(bytes', o, f)
  {
    SameShorter(bytes, bytes', o, size, HeaderSize(f));
  }

  /** Live and free blocks whose bytes are kept are still what they were. */
  lemma RestHolds(bytes: seq<byte>, bytes': seq<byte>, st: State)
    requires Partitioned(st) && Sized(st)
    requires HoldsLive(bytes, st.live) && HoldsFree(bytes, st.free) && Kept(bytes, bytes', st.extent)
    ensures HoldsLive(bytes', st.live) && HoldsFree(bytes', st.free)
  {
    forall o | o in st.live
      ensures LiveAt(bytes', o, st.live[o])
    {
      LiveKept(bytes, bytes', o, st.extent[o], st.live[o]);
    }
    forall o | o in st.free
      ensures FreeAt(bytes', o, st.free[o])
    {
      FreeKept(bytes, bytes', o, st.extent[o], st.free[o]);
    }
  }

  /** The state without block `o`. */
  ghost function Without(st: State, o: nat): State {
    st.(extent := st.extent - {o}, live := st.live - {o}, free := st.free - {o}, used := st.used - {o})
  }

  /** Whatever is written into block `o`, the live and free blocks other than `o` still hold. */
  lemma OthersHold(bytes: seq<byte>, bytes': seq<byte>, st: State, o: nat)
    requires Partitioned(st) && Sized(st) && Holds(bytes, st) && Kept(bytes, bytes', st.extent - {o})
    ensures HoldsLive(bytes', st.live - {o}) && HoldsFree(bytes', st.free - {o})
  {
    var rest := Without(st, o);
    assert Partitioned(rest) by {
      assert rest.extent.Keys == rest.live.Keys + rest.free.Keys + rest.used;
    }
    assert Sized(rest);
    RestHolds(bytes, bytes', rest);
  }

  /** A write inside one block keeps every other block. */
  lemma WriteInside(bytes: seq<byte>, extent: map<nat, nat>, o: nat, pos: nat, data: seq<byte>)
    requires Tiled(extent, |bytes|) && o in extent && o <= pos && pos + |data| <= o + extent[o]
    ensures |Splice(bytes, pos, data)| == |bytes|
    ensures Kept(bytes, Splice(bytes, pos, data), extent - {o})
    ensures SameBlock(bytes, Splice(bytes, pos, data), o, pos - o)
  {
    var bytes' := Splice(bytes, pos, data);
    forall q | q in extent && q != o
      ensures SameBlock(bytes, bytes', q, extent[q])
    {
      SpliceElsewhere(bytes, pos, data, q, q + extent[q]);
    }
  }

  // --------------------------------------------------- images after each transition

  /** A write of `data` into block `o`: what it puts there, and all that it leaves. */
  lemma WriteInBlock(bytes: seq<byte>, st: State, o: nat, pos: nat, data: seq<byte>)
    requires Sound(st) && Holds(bytes, st) && o in st.extent && o <= pos && pos + |data| <= o + st.extent[o]
    ensures |Splice(bytes, pos, data)| == |bytes| && pos + |data| <= |bytes|
    ensures Splice(bytes, pos, data)[pos..pos + |data|] == data
    ensures Kept(bytes, Splice(bytes, pos, data), st.extent - {o})
    ensures SameBlock(bytes, Splice(bytes, pos, data), o, pos - o)
    ensures HoldsLive(Splice(bytes, pos, data), st.live - {o})
    ensures HoldsFree(Splice(bytes, pos, data), st.free - {o})
  {
    WriteInside(bytes, st.extent, o, pos, data);
    SpliceAt(bytes, pos, data);
    OthersHold(bytes, Splice(bytes, pos, data), st, o);
  }

  lemma FreeWritten(bytes: seq<byte>, p: nat, data: seq<byte>, f: Free)
    requires |data| == HeaderSize(f) && FreeImage(data, f)
    requires p + |data| <= |bytes| && bytes[p..p + |data|] == data
    ensures FreeAt(bytes, p, f)
  {
  }

  lemma AddLive(bytes: seq<byte>, live: map<nat, SimpleHeader>, o: nat, h: SimpleHeader)
    requires HoldsLive(bytes, live - {o}) && LiveAt(bytes, o, h)
    ensures HoldsLive(bytes, live[o := h])
  {
    var live' := live[o := h];
    forall q | q in live'
      ensures LiveAt(bytes, q, live'[q])
    {
      if q != o {
        assert q in live - {o};
      }
    }
  }

  lemma AddFree(bytes: seq<byte>, free: map<nat, Free>, o: nat, f: Free)
    requires HoldsFree(bytes, free - {o}) && FreeAt(bytes, o, f)
    ensures HoldsFree(bytes, free[o := f])
  {
    var free' := free[o := f];
    forall q | q in free'
      ensures FreeAt(bytes, q, free'[q])
    {
      if q != o {
        assert q in free - {o};
      }
    }
  }

  lemma HoldsPlace(bytes: seq<byte>, st: State, o: nat, h: SimpleHeader)
    requires Sound(st) && Holds(bytes, st) && o in st.used && h.Valid() && h.Size() <= st.extent[o]
    ensures o + h.Size() <= |bytes| && |Splice(bytes, o, h.Pack())| == |bytes|
    ensures Holds(Splice(bytes, o, h.Pack()), Place(st, o, h))
    ensures Kept(bytes, Splice(bytes, o, h.Pack()), st.extent - {o})
  {
    WriteInBlock(bytes, st, o, o, h.Pack());
    AddLive(Splice(bytes, o, h.Pack()), st.live, o, h);
    assert st.free - {o} == st.free;
  }

  lemma HoldsUpdate(bytes: seq<byte>, st: State, o: nat, h: SimpleHeader)
    requires Sound(st) && Holds(bytes, st) && o in st.live && h.Valid() && h.Size() == st.live[o].Size()
    ensures o + h.Size() <= |bytes| && |Splice(bytes, o, h.Pack())| == |bytes|
    ensures Holds(Splice(bytes, o, h.Pack()), Update(st, o, h))
    ensures Kept(bytes, Splice(bytes, o, h.Pack()), st.extent - {o})
  {
    WriteInBlock(bytes, st, o, o, h.Pack());
    AddLive(Splice(bytes, o, h.Pack()), st.live, o, h);
    assert st.free - {o} == st.free;
  }

  lemma HoldsRelease(bytes: seq<byte>, st: State, o: nat, data: seq<byte>)
    requires Sound(st) && Holds(bytes, st) && o in st.live && |data| == st.live[o].Size()
    requires var f := Release(st, o).free[o]; FreeImage(data, f)
    ensures o + |data| <= |bytes| && |Splice(bytes, o, data)| == |bytes|
    ensures Holds(Splice(bytes, o, data), Release(st, o))
    ensures Kept(bytes, Splice(bytes, o, data), st.extent - {o})
  {
    WriteInBlock(bytes, st, o, o, data);
    AddFree(Splice(bytes, o, data), st.free, o, Release(st, o).free[o]);
  }

  lemma CutKept(bytes: seq<byte>, bytes': seq<byte>, extent: map<nat, nat>, o: nat, entry: nat)
    requires o in extent && entry <= extent[o]
    requires Kept(bytes, bytes', extent - {o}) && SameBlock(bytes, bytes', o, entry)
    ensures Kept(bytes, bytes', extent[o := entry])
  {
    var extent' := extent[o := entry];
    forall q | q in extent'
      ensures SameBlock(bytes, bytes', q, extent'[q])
    {
      if q != o {
        assert q in extent - {o};
      }
    }
  }

  lemma CutState(bytes: seq<byte>, st: State, o: nat, entry: nat, size: nat)
    requires |st.bins| == BIN_COUNT && SIMPLE4_SIZE <= size && |bytes| == st.end
    requires o !in st.live && o !in st.free && o + entry !in st.free
    requires HoldsLive(bytes, st.live - {o}) && HoldsFree(bytes, st.free - {o})
    requires FreeAt(bytes, o + entry, Remainder(st.bins, size))
    ensures Holds(bytes, Cut(st, o, entry, size))
  {
    assert st.live - {o} == st.live;
    assert st.free - {o} == st.free;
    assert st.free - {o + entry} == st.free;
    AddFree(bytes, st.free, o + entry, Remainder(st.bins, size));
    assert Cut(st, o, entry, size).free == st.free[o + entry := Remainder(st.bins, size)];
  }

  /** Cutting block `o`: the header of the remainder is written behind the part handed out. */
  lemma HoldsCut(bytes: seq<byte>, st: State, o: nat, entry: nat, size: nat, data: seq<byte>)
    requires Sound(st) && Holds(bytes, st) && o in st.used && 0 < entry && SIMPLE4_SIZE <= size
    requires entry + size + COMPLEX_DATA <= st.extent[o]
    requires |data| == HeaderSize(Remainder(st.bins, size)) && FreeImage(data, Remainder(st.bins, size))
    ensures o + entry + |data| <= |bytes| && |Splice(bytes, o + entry, data)| == |bytes|
    ensures Holds(Splice(bytes, o + entry, data), Cut(st, o, entry, size))
    ensures Kept(bytes, Splice(bytes, o + entry, data), st.extent[o := entry])
  {
    hide Sound, HoldsFree, HoldsLive, Kept, FreeImage, Splice;
    assert |data| <= size + COMPLEX_DATA;
    CutPlace(st, o, entry);
    WriteInBlock(bytes, st, o, o + entry, data);
    CutWritten(bytes, Splice(bytes, o + entry, data), st, o, entry, size, data);
  }

  /** Where the remainder of a block in other use will be. */
  lemma CutPlace(st: State, o: nat, entry: nat)
    requires Sound(st) && o in st.used && 0 < entry < st.extent[o]
    ensures |st.bins| == BIN_COUNT && o in st.extent && o !in st.live && o !in st.free && o + entry !in st.free
  {
    hide Sized, RefsFree, RefsApart;
    CutApart(st.extent, o, entry, st.extent[o] - entry);
  }

  lemma CutWritten(bytes: seq<byte>, bytes': seq<byte>, st: State, o: nat, entry: nat, size: nat, data: seq<byte>)
    requires |st.bins| == BIN_COUNT && SIMPLE4_SIZE <= size && |bytes| == |bytes'| == st.end
    requires o in st.extent && o !in st.live && o !in st.free && o + entry !in st.free && entry <= st.extent[o]
    requires |data| == HeaderSize(Remainder(st.bins, size)) && FreeImage(data, Remainder(st.bins, size))
    requires o + entry + |data| <= |bytes'| && bytes'[o + entry..o + entry + |data|] == data
    requires Kept(bytes, bytes', st.extent - {o}) && SameBlock(bytes, bytes', o, entry)
    requires HoldsLive(bytes', st.live - {o}) && HoldsFree(bytes', st.free - {o})
    ensures Holds(bytes', Cut(st, o, entry, size)) && Kept(bytes, bytes', st.extent[o := entry])
  {
    CutKept(bytes, bytes', st.extent, o, entry);
    FreeWritten(bytes', o + entry, data, Remainder(st.bins, size));
    CutState(bytes', st, o, entry, size);
  }

  // ------------------------------------------------------------------ new clusters

  /** The link of the `i`-th of the clusters appended at `start`: each one points to the one before it. */
  function ClusterLink(start: nat, i: nat): nat {
    if i == 0 then 0 else start + CLUSTER_SIZE * (i - 1)
  }

  ghost predicate ClusterAt(bytes: seq<byte>, start: nat, i: nat) {
    FreeAt(bytes, start + CLUSTER_SIZE * i, FreeComplex(ClusterLink(start, i), CLUSTER_SIZE - COMPLEX_DATA))
  }

  ghost predicate ClustersAt(bytes: seq<byte>, start: nat, count: nat) {
    forall i: nat | i < count :: ClusterAt(bytes, start, i)
  }

  /** The state with `count` linked clusters appended that no list refers to yet. */
  ghost function Clusters(st: State, count: nat): State {
    if count == 0 then st
    else AddCluster(Clusters(st, count - 1), ClusterLink(st.end, count - 1))
  }

  /** The state after a growth: the last cluster heads the cluster class. */
  ghost function Grown(st: State, count: nat): State
    requires |st.bins| == BIN_COUNT && count > 0
  {
    Clusters(st, count).(bins := st.bins[BIN_COUNT - 1 := st.end + CLUSTER_SIZE * (count - 1)])
  }

  lemma {:induction false} ClustersEnd(st: State, count: nat)
    ensures var r := Clusters(st, count);
            r.end == st.end + CLUSTER_SIZE * count && r.bins == st.bins && r.live == st.live && r.used == st.used
  {
    if count > 0 {
      ClustersEnd(st, count - 1);
    }
  }

  /** What was there stays; what is new is a cluster. */
  lemma {:induction false} ClustersOld(st: State, count: nat, o: nat)
    requires Sound(st)
    ensures o in st.extent ==>
              o in Clusters(st, count).extent && Clusters(st, count).extent[o] == st.extent[o]
    ensures o in st.extent ==> (o in Clusters(st, count).free <==> o in st.free)
    ensures o in st.free ==> Clusters(st, count).free[o] == st.free[o]
    ensures o in Clusters(st, count).extent && o !in st.extent ==>
              st.end <= o && o in Clusters(st, count).free && Clusters(st, count).extent[o] == CLUSTER_SIZE
  {
    if count > 0 {
      ClustersOld(st, count - 1, o);
      ClustersEnd(st, count - 1);
    }
  }

  lemma {:induction false} ClustersNew(st: State, count: nat, i: nat)
    requires i < count
    ensures var o := st.end + CLUSTER_SIZE * i;
            && o in Clusters(st, count).free && o in Clusters(st, count).extent
            && Clusters(st, count).free[o] == FreeComplex(ClusterLink(st.end, i), CLUSTER_SIZE - COMPLEX_DATA)
            && Clusters(st, count).extent[o] == CLUSTER_SIZE
  {
    ClustersEnd(st, count - 1);
    if i < count - 1 {
      ClustersNew(st, count - 1, i);
    }
  }

  lemma {:induction false} ClustersOnly(st: State, count: nat, o: nat) returns (i: nat)
    requires o in Clusters(st, count).free && o !in st.free
    ensures i < count && o == st.end + CLUSTER_SIZE * i
  {
    ClustersEnd(st, count - 1);
    if o == st.end + CLUSTER_SIZE * (count - 1) {
      i := count - 1;
    } else {
      i := ClustersOnly(st, count - 1, o);
    }
  }

  /** The last of the new clusters is not referred to by anything yet. */
  lemma {:induction false} ClustersSound(st: State, count: nat)
    requires Sound(st)
    ensures Sound(Clusters(st, count))
    ensures count > 0 ==> Unreferred(Clusters(st, count), st.end + CLUSTER_SIZE * (count - 1))
  {
    hide Sound, Unreferred;
    if count > 0 {
      ClustersSound(st, count - 1);
      ClustersEnd(st, count - 1);
      if count > 1 {
        ClustersNew(st, count - 1, count - 2);
      }
      AddUnreferred(Clusters(st, count - 1), ClusterLink(st.end, count - 1));
    }
  }

  ghost predicate Unreferred(st: State, o: nat) {
    o !in st.bins && forall q | q in st.free :: st.free[q].next != o
  }

  lemma AddUnreferred(st: State, next: nat)
    requires Sound(st)
    requires next != 0 ==> next in st.free && COMPLEX_SIZE <= st.extent[next] && Unreferred(st, next)
    ensures Sound(AddCluster(st, next)) && Unreferred(AddCluster(st, next), st.end)
  {
    AddClusterSound(st, next);
    forall q | q in st.free
      ensures st.free[q].next != st.end
    {
      assert LinkFree(st.free, st.extent, q);
    }
  }

  /** Making an unreferred cluster the head of a class. */
  lemma HeadRefs(free: map<nat, Free>, extent: map<nat, nat>, bins: seq<nat>, k: nat, o: nat)
    requires free.Keys <= extent.Keys && |bins| == BIN_COUNT && k < BIN_COUNT
    requires RefsFree(free, extent, bins) && RefsApart(free, bins)
    requires o != 0 && o in free && o !in bins && COMPLEX_SIZE <= extent[o]
    requires forall q | q in free :: free[q].next != o
    ensures RefsFree(free, extent, bins[k := o]) && RefsApart(free, bins[k := o])
  {
  }

  lemma GrownSound(st: State, count: nat)
    requires Sound(st) && count > 0
    ensures Sound(Grown(st, count))
  {
    hide Unreferred;
    ClustersSound(st, count);
    ClustersEnd(st, count);
    ClustersNew(st, count, count - 1);
    HeadSound(Clusters(st, count), BIN_COUNT - 1, st.end + CLUSTER_SIZE * (count - 1));
  }

  lemma HeadSound(st: State, k: nat, o: nat)
    requires Sound(st) && k < BIN_COUNT && o != 0 && o in st.free && COMPLEX_SIZE <= st.extent[o] && Unreferred(st, o)
    ensures Sound(st.(bins := st.bins[k := o]))
  {
    hide RefsFree, RefsApart, Tiled;
    HeadRefs(st.free, st.extent, st.bins, k, o);
    var r := st.(bins := st.bins[k := o]);
    assert Partitioned(r);
    assert Sized(r);
  }

  /** The device after a growth holds the grown state. */
  lemma HoldsClusters(bytes: seq<byte>, bytes': seq<byte>, st: State, count: nat)
    requires Sound(st) && Holds(bytes, st) && |bytes'| == st.end + CLUSTER_SIZE * count
    requires bytes'[..st.end] == bytes && ClustersAt(bytes', st.end, count)
    ensures Holds(bytes', Clusters(st, count)) && Kept(bytes, bytes', st.extent)
  {
    ClustersEnd(st, count);
    PrefixKept(bytes, bytes', st);
    hide Kept, Sized;
    RestHolds(bytes, bytes', st);
    forall o | o in Clusters(st, count).free
      ensures FreeAt(bytes', o, Clusters(st, count).free[o])
    {
      ClustersOld(st, count, o);
      if o !in st.free {
        var i := ClustersOnly(st, count, o);
        ClustersNew(st, count, i);
        assert ClusterAt(bytes', st.end, i);
      }
    }
  }

  lemma PrefixKept(bytes: seq<byte>, bytes': seq<byte>, st: State)
    requires Tiled(st.extent, st.end) && |bytes| == st.end <= |bytes'| && bytes'[..st.end] == bytes
    ensures Kept(bytes, bytes', st.extent)
  {
    forall o | o in st.extent
      ensures SameBlock(bytes, bytes', o, st.extent[o])
    {
      assert bytes'[o..o + st.extent[o]] == bytes'[..st.end][o..o + st.extent[o]];
    }
  }
}
