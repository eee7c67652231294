/**
 * Simple and complex free blocks keep to lists of their own. Long values can be stored while this holds: the classes from
 * 3 on then hand out nothing but complex blocks. Operations on fixed-size values keep it; cutting a block for a long
 * value may break it, exactly when the remainder goes to class 2 in front of a block of the other sort.
 */
module Segregation {
  import opened Layout
  import opened Freelist
  import opened Blocks
  import opened Image
  import opened Allocation
  import opened FreedChunks

  /** A complex block links to complex blocks only, a simple one to simple ones. */
  ghost predicate LinkAlike(free: map<nat, Free>, o: nat)
    requires o in free
  { free[o].next in free ==> (free[free[o].next].FreeComplex? <==> free[o].FreeComplex?) }

  ghost predicate LinksAlike(free: map<nat, Free>) {
    forall o {:trigger LinkAlike(free, o)} | o in free :: LinkAlike(free, o)
  }

  /** Classes 0 and 1 start with simple blocks, and those from 3 on with complex ones. */
  ghost predicate HeadsAlike(free: map<nat, Free>, bins: seq<nat>)
    requires |bins| == BIN_COUNT
  {
    forall i | 0 <= i < BIN_COUNT && i != 2 && bins[i] in free :: free[bins[i]].FreeComplex? <==> 3 <= i
  }

  /** No complex block is so small that its successor might put it into class 2. */
  ghost predicate AllWide(free: map<nat, Free>) {
    forall o | o in free && free[o].FreeComplex? :: COMPLEX_DATA < free[o].size
  }

  ghost predicate Segregated(st: State) {
    |st.bins| == BIN_COUNT && HeadsAlike(st.free, st.bins) && LinksAlike(st.free) && AllWide(st.free)
  }

  /** Does class 2 start with a simple block? */
  ghost predicate SimpleTwo(st: State) {
    |st.bins| == BIN_COUNT && st.bins[2] != 0 && st.bins[2] in st.free && !st.free[st.bins[2]].FreeComplex?
  }

  lemma EmptyIsSegregated()
    ensures Segregated(EMPTY)
  {
  }

  /** What depends on the free blocks and the heads only. */
  lemma SegregatedSame(st: State, st': State)
    requires st'.free == st.free && st'.bins == st.bins
    ensures Segregated(st) ==> Segregated(st')
  {
  }

  // ------------------------------------------------------------------- taking a block

  /** The rest of a list goes to a class of its sort, and never to class 2. */
  lemma DetachSegregated(st: State, k: nat, j: nat)
    requires Sound(st) && Segregated(st) && k < BIN_COUNT && st.bins[k] != 0 && st.bins[k] in st.free
    requires LinkBin(st, st.free[st.bins[k]], j)
    ensures j < BIN_COUNT && Segregated(Detach(st, k, j))
    ensures Detach(st, k, j).bins[2] == if k == 2 then 0 else st.bins[2]
  {
    var o := st.bins[k];
    var next := st.free[o].next;
    var r := Detach(st, k, j);
    LinkGoes(st, o, j);
    forall q | q in r.free
      ensures LinkAlike(r.free, q)
    {
      assert LinkAlike(st.free, q);
    }
  }

  lemma LinkGoes(st: State, o: nat, j: nat)
    requires Sound(st) && Segregated(st) && o in st.free && LinkBin(st, st.free[o], j)
    ensures j < BIN_COUNT
    ensures st.free[o].next != 0 ==>
              && st.free[o].next in st.free && j != 2
              && (st.free[st.free[o].next].FreeComplex? <==> 3 <= j)
  {
    assert LinkFree(st.free, st.extent, o) && LinkAlike(st.free, o);
  }

  /** A new block in front of a class. */
  lemma PushSegregated(free: map<nat, Free>, bins: seq<nat>, p: nat, f: Free, b: nat)
    requires |bins| == BIN_COUNT && HeadsAlike(free, bins) && LinksAlike(free) && AllWide(free)
    requires b < BIN_COUNT && p !in free && forall q | q in free :: free[q].next != p
    requires f.next != p && p !in bins
    requires f.next in free ==> (free[f.next].FreeComplex? <==> f.FreeComplex?)
    requires b != 2 ==> (f.FreeComplex? <==> 3 <= b)
    requires f.FreeComplex? ==> COMPLEX_DATA < f.size
    ensures HeadsAlike(free[p := f], bins[b := p]) && LinksAlike(free[p := f]) && AllWide(free[p := f])
  {
    var free' := free[p := f];
    forall q | q in free'
      ensures LinkAlike(free', q)
    {
      assert q != p ==> LinkAlike(free, q);
    }
  }

  /** A cut keeps the lists apart exactly if the remainder does not meet a block of the other sort in class 2. */
  lemma CutSegregatedExactly(st: State, o: nat, entry: nat, size: nat)
    requires Sound(st) && Segregated(st) && o in st.used && 0 < entry && entry + size + COMPLEX_DATA <= st.extent[o]
    ensures |st.bins| == BIN_COUNT
    ensures Segregated(Cut(st, o, entry, size)) <==>
            (16 < size <= 64 && st.bins[2] != 0 ==>
               st.bins[2] in st.free && (st.free[st.bins[2]].FreeComplex? <==> COMPLEX_SIZE < size))
  {
    HeadIsFree(st, 2);
    if size >= SIMPLE4_SIZE {
      BehindIsUnlinked(st, o, entry);
      HeadIsFree(st, BinId(size));
      hide Sound, HeadsAlike, AllWide, LinksAlike;
      RemainderMeets(st, o + entry, size);
    }
  }

  /** The remainder in front of its class. */
  lemma RemainderMeets(st: State, p: nat, size: nat)
    requires |st.bins| == BIN_COUNT && Segregated(st) && SIMPLE4_SIZE <= size && 0 !in st.free
    requires p !in st.free && p != 0 && p !in st.bins && forall q | q in st.free :: st.free[q].next != p
    requires st.bins[2] != 0 ==> st.bins[2] in st.free
    ensures var free, bins := st.free[p := Remainder(st.bins, size)], st.bins[BinId(size) := p];
            HeadsAlike(free, bins) && LinksAlike(free) && AllWide(free)
            <==> (16 < size <= 64 && st.bins[2] != 0 ==> (st.free[st.bins[2]].FreeComplex? <==> COMPLEX_SIZE < size))
  {
    var f, b := Remainder(st.bins, size), BinId(size);
    RemainderIsAlike(st, size);
    hide BinId, Remainder, HeadsAlike, AllWide;
    assert f.next != p;
    if b == 2 && st.bins[2] != 0 && (st.free[st.bins[2]].FreeComplex? <==> COMPLEX_SIZE >= size) {
      assert !LinkAlike(st.free[p := f], p);
    } else {
      PushSegregated(st.free, st.bins, p, f, b);
    }
  }

  lemma RemainderIsAlike(st: State, size: nat)
    requires |st.bins| == BIN_COUNT && HeadsAlike(st.free, st.bins) && SIMPLE4_SIZE <= size
    ensures var f, b := Remainder(st.bins, size), BinId(size);
            && (b != 2 ==> (f.FreeComplex? <==> 3 <= b)) && (f.FreeComplex? ==> COMPLEX_DATA < f.size)
            && (b != 2 && f.next in st.free ==> (st.free[f.next].FreeComplex? <==> f.FreeComplex?))
            && f.next == st.bins[b] && (b == 2 <==> 16 < size <= 64) && (f.FreeComplex? <==> COMPLEX_SIZE < size)
  {
  }

  lemma BehindIsUnlinked(st: State, o: nat, entry: nat)
    requires Sound(st) && o in st.extent && 0 < entry < st.extent[o]
    ensures var p := o + entry; p !in st.free && p != 0 && p !in st.bins && forall q | q in st.free :: st.free[q].next != p
  {
    BehindIsFresh(st, o, entry);
    Unlinked(st.free, st.extent, st.bins, o + entry);
  }

  /** An allocation for a fixed-size value keeps the lists apart. */
  lemma AllocatedSegregated(st: State, st': State, entry: nat, o: nat, k: nat)
    requires Sound(st) && Segregated(st) && Allocated(st, st', entry, o, k)
    requires entry == SIMPLE4_SIZE || entry == SIMPLE8_SIZE
    ensures Segregated(st')
  {
    hide Sound, LinkBin, PopBin, Cut, Segregated;
    var j :| 0 <= j < BIN_COUNT && LinkBin(st, st.free[o], j) && st' == Allocate(st, k, j, entry);
    var d, f := Detach(st, k, j), st.free[o];
    FreeFacts(st, o);
    DetachSegregated(st, k, j);
    if f.FreeComplex? && entry <= f.size {
      DetachSound(st, k, j);
      ComplexHead(st, k);
      ClassTwoEmpty(st.bins, entry, k);
      CutSegregatedExactly(d, o, entry, f.size - entry);
    }
  }

  lemma ComplexHead(st: State, k: nat)
    requires Segregated(st) && k < BIN_COUNT && st.bins[k] in st.free
    ensures st.free[st.bins[k]].FreeComplex? ==> 2 <= k && COMPLEX_DATA < st.free[st.bins[k]].size
    ensures 3 <= k ==> st.free[st.bins[k]].FreeComplex?
  {
  }

  /** A small request is served from a class behind the second one only if that one is empty. */
  lemma ClassTwoEmpty(bins: seq<nat>, entry: nat, k: nat)
    requires |bins| == BIN_COUNT && entry <= SIMPLE8_SIZE && 2 <= k < BIN_COUNT && PopBin(bins, entry) == k
    ensures k > 2 ==> bins[2] == 0
  {
    if k > 2 && bins[2] != 0 {
      FirstFitServes(bins, entry, 2);
    }
  }

  /**
   * A request for a chunk of a long value is served by a complex block, either cut to size or used up. As long as blocks
   * are used up, the lists stay apart.
   */
  lemma ChunkSegregated(st: State, st': State, entry: nat, o: nat, k: nat)
    requires Sound(st) && Segregated(st) && Allocated(st, st', entry, o, k) && entry > 64
    ensures o in st.free && st.free[o].FreeComplex? && COMPLEX_DATA < st.free[o].size && o in st'.extent
    ensures st.free[o].size < entry ==> st.free[o].size + COMPLEX_DATA <= st'.extent[o] && Segregated(st')
    ensures entry <= st.free[o].size ==> entry <= st'.extent[o]
  {
    hide Sound, LinkBin, PopBin, Cut, Segregated;
    var j :| 0 <= j < BIN_COUNT && LinkBin(st, st.free[o], j) && st' == Allocate(st, k, j, entry);
    FreeFacts(st, o);
    ClustersServeEverySize(st.bins, entry);
    ComplexHead(st, k);
    DetachSegregated(st, k, j);
    DetachSound(st, k, j);
    if entry <= st.free[o].size {
      CutKeeps(Detach(st, k, j), o, entry, st.free[o].size - entry);
    }
  }

  /** With nothing in class 2, even a block that is cut for a chunk keeps the lists apart. */
  lemma ChunkKeepsApart(st: State, st': State, entry: nat, o: nat, k: nat)
    requires Sound(st) && Segregated(st) && Allocated(st, st', entry, o, k) && entry > 64 && st.bins[2] == 0
    ensures Segregated(st') && o in st.free && st.free[o].FreeComplex?
    ensures !(entry <= st.free[o].size && 16 < st.free[o].size - entry <= 64) ==> |st'.bins| == BIN_COUNT && st'.bins[2] == 0
  {
    hide Sound, LinkBin, PopBin, Segregated;
    var j :| 0 <= j < BIN_COUNT && LinkBin(st, st.free[o], j) && st' == Allocate(st, k, j, entry);
    FreeFacts(st, o);
    ClustersServeEverySize(st.bins, entry);
    ComplexHead(st, k);
    DetachSegregated(st, k, j);
    DetachSound(st, k, j);
    if entry <= st.free[o].size {
      CutSegregatedExactly(Detach(st, k, j), o, entry, st.free[o].size - entry);
    }
  }

  // ---------------------------------------------------------------- new and freed blocks

  lemma {:induction false} ClustersSegregated(st: State, count: nat)
    requires Sound(st) && Segregated(st)
    ensures Segregated(Clusters(st, count))
  {
    hide Sound, Segregated, AddCluster;
    if count > 0 {
      ClustersSegregated(st, count - 1);
      ClustersSound(st, count - 1);
      LastCluster(st, count - 1);
      ClusterSegregated(Clusters(st, count - 1), ClusterLink(st.end, count - 1));
    }
  }

  /** What the next cluster links to. */
  lemma {:induction false} LastCluster(st: State, count: nat)
    requires Sound(st)
    ensures var next := ClusterLink(st.end, count);
            && (next != 0 ==> next in Clusters(st, count).free && Clusters(st, count).free[next].FreeComplex?)
            && (next == 0 ==> next !in Clusters(st, count).free)
  {
    if count > 0 {
      ClustersNew(st, count, count - 1);
    } else {
      HeadIsFree(st, 0);
    }
  }

  lemma ClusterSegregated(st: State, next: nat)
    requires Sound(st) && Segregated(st) && (next in st.free ==> st.free[next].FreeComplex?)
    requires next != 0 ==> next in st.free
    ensures Segregated(AddCluster(st, next))
  {
    var r := AddCluster(st, next);
    AddTiled(st.extent, st.end, CLUSTER_SIZE);
    HeadIsFree(st, 0);
    Unlinked(st.free, st.extent, st.bins, st.end);
    forall q | q in r.free
      ensures LinkAlike(r.free, q)
    {
      assert q != st.end ==> LinkAlike(st.free, q);
    }
  }

  lemma GrownSegregated(st: State, count: nat)
    requires Sound(st) && Segregated(st) && count > 0
    ensures Segregated(Grown(st, count))
  {
    hide Sound, Clusters, HeadsAlike, LinksAlike, AllWide;
    ClustersSegregated(st, count);
    ClustersEnd(st, count);
    ClustersNew(st, count, count - 1);
    LargeHead(Clusters(st, count), st.end + CLUSTER_SIZE * (count - 1));
  }

  lemma LargeHead(st: State, o: nat)
    requires |st.bins| == BIN_COUNT && HeadsAlike(st.free, st.bins) && o in st.free && st.free[o].FreeComplex?
    ensures HeadsAlike(st.free, st.bins[BIN_COUNT - 1 := o])
  {
  }

  lemma ReleaseSegregated(st: State, o: nat)
    requires Sound(st) && Segregated(st) && o in st.live
    ensures Segregated(Release(st, o))
  {
    var b := BinId(st.live[o].Size());
    HeadIsFree(st, b);
    Unlinked(st.free, st.extent, st.bins, o);
    PushSegregated(st.free, st.bins, o, Release(st, o).free[o], b);
  }

  /** Freeing a chunk of more than 32 bytes, if the class it is linked to is empty or the one it is put into. */
  lemma ChunkFreedSegregated(st: State, o: nat, n: nat)
    requires Segregated(st) && o !in st.free && o != 0 && COMPLEX_DATA < n <= CLUSTER_SIZE
    requires o !in st.bins && forall q | q in st.free :: st.free[q].next != o
    requires BinId(n) == 2 ==> st.bins[2] !in st.free
    ensures Segregated(ChunkFreed(st, o, n))
  {
    PushSegregated(st.free, st.bins, o, FreeComplex(st.bins[BinId(n)], n), ClassOfFreed(n));
  }

  /** Deleting a long value whose freed chunks hold more than 32 bytes keeps the lists apart if the volume stays intact. */
  lemma ValueFreedSegregated(st: State, blocks: seq<nat>, sizes: seq<nat>)
    requires Sound(st) && Segregated(st) && ChunkSizes(sizes) && |sizes| <= |blocks| && StaysApart(st.bins, sizes)
    requires forall i | 0 <= i < |sizes| :: blocks[i] in st.used && COMPLEX_DATA < sizes[i]
    requires |sizes| == 2 ==> blocks[0] != blocks[1]
    ensures Segregated(ValueFreed(st, blocks, sizes))
  {
    hide Sound, Segregated, ClassOfFreed, BinId;
    HeadIsFree(st, 2);
    UsedIsUnlinked(st, blocks[0]);
    WideClass(sizes[0]);
    WideClass(sizes[|sizes| - 1]);
    ChunkFreedSegregated(st, blocks[0], sizes[0]);
    if |sizes| == 2 {
      UsedIsUnlinked(st, blocks[1]);
      var one := ChunkFreed(st, blocks[0], sizes[0]);
      LinkOfHead(st, BinId(sizes[0]), blocks[1]);
      ChunkFreedSegregated(one, blocks[1], sizes[1]);
    }
  }

  lemma WideClass(n: nat)
    requires COMPLEX_DATA < n <= CLUSTER_SIZE
    ensures 3 <= ClassOfFreed(n) && 2 <= BinId(n)
  {
  }

  lemma LinkOfHead(st: State, k: nat, o: nat)
    requires |st.bins| == BIN_COUNT && k < BIN_COUNT && o !in st.bins
    ensures st.bins[k] != o
  {
  }

  lemma UsedIsUnlinked(st: State, o: nat)
    requires Sound(st) && o in st.used
    ensures o !in st.free && o != 0 && o !in st.bins && forall q | q in st.free :: st.free[q].next != o
  {
    Unlinked(st.free, st.extent, st.bins, o);
  }
}
