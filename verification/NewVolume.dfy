/** The first steps of a new volume: five clusters, from which the first blocks of long values are cut. */
module NewVolume {
  import opened Layout
  import opened Freelist
  import opened Blocks
  import opened Image
  import opened Allocation
  import opened EntrySteps

  /** The volume after its first growth. */
  ghost function New(): State { Grown(EMPTY, 5) }

  lemma {:induction false} NewIs()
    ensures Sound(New()) && New().end == 19324 && New().used == {} && New().live == map[]
    ensures New().bins == [0, 0, 0, 0, 0, 0, 0, 0, 0, 0, 15484]
    ensures Cluster(New(), 124, 0) && Cluster(New(), 3964, 124) && Cluster(New(), 7804, 3964)
    ensures Cluster(New(), 11644, 7804) && Cluster(New(), 15484, 11644)
  {
    hide Sound, Clusters;
    EmptyIsSound();
    GrownSound(EMPTY, 5);
    ClustersEnd(EMPTY, 5);
    ClustersNew(EMPTY, 5, 0);
    ClustersNew(EMPTY, 5, 1);
    ClustersNew(EMPTY, 5, 2);
    ClustersNew(EMPTY, 5, 3);
    ClustersNew(EMPTY, 5, 4);
  }

  /** A whole cluster at `o` that links to `next`. */
  ghost predicate Cluster(st: State, o: nat, next: nat) {
    o in st.free && st.free[o] == FreeComplex(next, 3808) && o in st.extent && st.extent[o] == CLUSTER_SIZE
  }

  /** A block of the cluster class, whole or cut. */
  ghost predicate Large(st: State, o: nat, next: nat, size: nat) {
    && o in st.free && st.free[o] == FreeComplex(next, size) && o in st.extent && st.extent[o] == size + COMPLEX_DATA
    && next in st.free && st.free[next].FreeComplex? && st.free[next].size == 3808 && next != 0
  }

  /** What cutting the head of the cluster class gives. */
  ghost predicate HeadCut(st: State, r: State, o: nat, next: nat, size: nat, entry: nat)
    requires |st.bins| == BIN_COUNT && entry <= size
  {
    && r.end == st.end && r.used == st.used + {o} && r.live == st.live
    && r.extent == st.extent[o := entry][o + entry := size + COMPLEX_DATA - entry]
    && r.bins == st.bins[10 := next][BinId(size - entry) := o + entry]
    && r.free == (st.free - {o})[o + entry := Remainder(st.bins[10 := next], size - entry)]
  }

  /** Taking the head of the cluster class for a chunk, and cutting it. */
  lemma CutCluster(st: State, o: nat, next: nat, size: nat, entry: nat)
    requires Sound(st) && |st.bins| == BIN_COUNT && st.bins[10] == o && Large(st, o, next, size)
    requires 0 < entry && entry + SIMPLE4_SIZE <= size && PopBin(st.bins, entry) == 10
    ensures Allocated(st, Allocate(st, 10, 10, entry), entry, o, 10)
    ensures Sound(Allocate(st, 10, 10, entry)) && HeadCut(st, Allocate(st, 10, 10, entry), o, next, size, entry)
  {
    hide Sound, PopBin, Remainder;
    var r := Allocate(st, 10, 10, entry);
    LinkOfCluster(st, o, next, size);
    hide LinkBin, BinId;
    assert Allocated(st, r, entry, o, 10);
    AllocatedSound(st, r, entry, o, 10);
    CutState(st, o, next, size, entry);
  }

  lemma LinkOfCluster(st: State, o: nat, next: nat, size: nat)
    requires Large(st, o, next, size)
    ensures LinkBin(st, st.free[o], 10)
  {
  }

  lemma CutState(st: State, o: nat, next: nat, size: nat, entry: nat)
    requires |st.bins| == BIN_COUNT && st.bins[10] == o && Large(st, o, next, size) && entry + SIMPLE4_SIZE <= size
    ensures HeadCut(st, Allocate(st, 10, 10, entry), o, next, size, entry)
  {
    hide BinId, Remainder;
    assert st.bins[10 := 0][10 := next] == st.bins[10 := next];
  }

  /** A class that admits the size, when no class before it does. */
  lemma PopsAt(bins: seq<nat>, size: nat, k: nat)
    requires |bins| == BIN_COUNT && k < BIN_COUNT && bins[k] != 0 && size <= LIMITS[k]
    requires forall i | 0 <= i < k :: LIMITS[i] < size || bins[i] == 0
    ensures PopBin(bins, size) == k
  {
    FirstFitServes(bins, size, k);
  }
}
