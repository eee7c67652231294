/** A run in which deleting a long value makes the allocator hand out one block twice. */
module SharedBlock {
  import opened Layout
  import opened Freelist
  import opened Blocks
  import opened Allocation
  import opened FreedChunks
  import opened NewVolume

  /** The heads of the classes when block 18892 is handed out again. */
  const HEADS: seq<nat> := [0, 0, 0, 19192, 0, 0, 18892, 0, 13986, 0, 7804]

  /** A long value of 493 bytes is stored in a new volume: its chunk and the spare block are cut from the last cluster. */
  lemma FirstStored() returns (chunk: State, spare: State)
    ensures Allocated(New(), chunk, 533, 15484, 10) && Allocated(chunk, spare, 533, 16017, 10)
    ensures Sound(spare) && spare.used == {15484, 16017} && spare.live == map[]
    ensures spare.bins == [0, 0, 0, 0, 0, 0, 0, 0, 0, 0, 16550] && Large(spare, 16550, 11644, 2742)
    ensures Cluster(spare, 11644, 7804) && Cluster(spare, 7804, 3964) && 15484 in spare.extent && spare.extent[15484] == 533
  {
    NewIs();
    hide Sound, New, Allocated, PopBin, Allocate;
    PopsAt(New().bins, 533, 10);
    CutCluster(New(), 15484, 11644, 3808, 533);
    chunk := Allocate(New(), 10, 10, 533);
    PopsAt(chunk.bins, 533, 10);
    CutCluster(chunk, 16017, 11644, 3275, 533);
    spare := Allocate(chunk, 10, 10, 533);
  }

  /** Another one of 2302 bytes: what is left of the cluster after its chunk goes to class 6. */
  lemma SecondStored(before: State) returns (chunk: State, spare: State)
    requires Sound(before) && before.used == {15484, 16017} && before.live == map[]
    requires before.bins == [0, 0, 0, 0, 0, 0, 0, 0, 0, 0, 16550] && Large(before, 16550, 11644, 2742)
    requires Cluster(before, 11644, 7804) && Cluster(before, 7804, 3964)
    requires 15484 in before.extent && before.extent[15484] == 533
    ensures Allocated(before, chunk, 2342, 16550, 10) && Allocated(chunk, spare, 2342, 11644, 10)
    ensures Sound(spare) && spare.used == {15484, 16017, 16550, 11644} && spare.live == map[]
    ensures spare.bins == [0, 0, 0, 0, 0, 0, 18892, 0, 13986, 0, 7804]
    ensures 18892 in spare.free && spare.free[18892] == FreeComplex(0, 400)
    ensures 15484 in spare.extent && spare.extent[15484] == 533
  {
    hide Sound, Allocated, PopBin, Allocate;
    PopsAt(before.bins, 2342, 10);
    CutCluster(before, 16550, 11644, 2742, 2342);
    chunk := Allocate(before, 10, 10, 2342);
    PopsAt(chunk.bins, 2342, 10);
    CutCluster(chunk, 11644, 7804, 3808, 2342);
    spare := Allocate(chunk, 10, 10, 2342);
  }

  /**
   * Then the first value is deleted. Its block becomes the head of class 7 and links to block 18892, the head of class 6.
   * A request of 300 bytes takes that block. A request of 700 bytes takes the block of the value, and restores its link,
   * to class 6 as the header at 18892 says. The next request of 300 bytes is served with 18892, which is in use.
   */
  lemma HandedOutTwice()
    returns (stored: State, first: State, second: State)
    ensures Sound(stored) && stored.used == {15484, 16017, 16550, 11644} && KeepsAll(stored.bins, [493])
    ensures var deleted := ValueFreed(stored, [15484], [493]);
            && !Sound(deleted)
            && Allocated(deleted, first, 300, 18892, 6) && 18892 in first.used
            && Allocated(first, second, 700, 15484, 7)
    ensures BinId(400 + COMPLEX_DATA) == 6 && second == Detach(first, 7, 6)
    ensures second.bins == HEADS && PopBin(second.bins, 300) == 6 && second.bins[6] == 18892 && 18892 in second.used
  {
    hide Sound, PopBin, Allocated, KeepsAll, ValueFreed, Detach;
    var _, spare1 := FirstStored();
    var _, spare2 := SecondStored(spare1);
    stored := spare2;
    ValueDeleted(stored);
    first := TakeSix(ValueFreed(stored, [15484], [493]));
    second := TakeSeven(first);
    Classes493();
  }

  lemma ValueDeleted(st: State)
    requires Sound(st) && 15484 in st.used && 15484 in st.extent && st.extent[15484] == 533
    requires st.bins == [0, 0, 0, 0, 0, 0, 18892, 0, 13986, 0, 7804]
    requires 18892 in st.free && st.free[18892] == FreeComplex(0, 400)
    ensures ChunkSizes([493]) && KeepsAll(st.bins, [493])
    ensures var r := ValueFreed(st, [15484], [493]);
            && !Sound(r) && r.bins == [0, 0, 0, 0, 0, 0, 18892, 15484, 13986, 0, 7804] && 0 !in r.free
            && 18892 in r.free && r.free[18892] == FreeComplex(0, 400)
            && 15484 in r.free && r.free[15484] == FreeComplex(18892, 493)
  {
    hide Sound, BinId, ClassOfFreed;
    Classes493();
    NotIntact(st);
    HeadIsFree(st, 0);
  }

  lemma NotIntact(st: State)
    requires Sound(st) && 15484 in st.used && 15484 in st.extent && st.extent[15484] == 533
    requires |st.bins| == BIN_COUNT && st.bins[6] == 18892
    ensures ChunkSizes([493]) && !Sound(ValueFreed(st, [15484], [493]))
  {
    hide Sound, BinId, ClassOfFreed;
    Classes493();
    IntactExactly(st, [15484], [493]);
  }

  lemma TakeSix(st: State) returns (r: State)
    requires st.bins == [0, 0, 0, 0, 0, 0, 18892, 15484, 13986, 0, 7804]
    requires 18892 in st.free && st.free[18892] == FreeComplex(0, 400) && 0 !in st.free
    requires 15484 in st.free && st.free[15484] == FreeComplex(18892, 493)
    ensures Allocated(st, r, 300, 18892, 6) && r.used == st.used + {18892}
    ensures r.bins == [0, 0, 0, 19192, 0, 0, 0, 15484, 13986, 0, 7804]
    ensures 15484 in r.free && r.free[15484] == FreeComplex(18892, 493) && 18892 !in r.free
  {
    PopsAt(st.bins, 300, 6);
    hide PopBin;
    r := Allocate(st, 6, 6, 300);
    assert LinkBin(st, st.free[18892], 6);
    assert Detach(st, 6, 6).bins == [0, 0, 0, 0, 0, 0, 0, 15484, 13986, 0, 7804];
  }

  lemma TakeSeven(st: State) returns (r: State)
    requires st.bins == [0, 0, 0, 19192, 0, 0, 0, 15484, 13986, 0, 7804]
    requires 15484 in st.free && st.free[15484] == FreeComplex(18892, 493) && 18892 !in st.free
    ensures Allocated(st, r, 700, 15484, 7) && r == Detach(st, 7, 6) && r.used == st.used + {15484}
    ensures r.bins == HEADS && PopBin(r.bins, 300) == 6
  {
    PopsAt(st.bins, 700, 7);
    hide PopBin;
    r := Allocate(st, 7, 6, 700);
    assert LinkBin(st, st.free[15484], 6);
    assert r.bins == HEADS;
    PopsAt(r.bins, 300, 6);
  }

  lemma Classes493()
    ensures BinId(493) == 6 && ClassOfFreed(493) == 7 && BinId(400 + COMPLEX_DATA) == 6
  {
  }

  /** The third request, on the lists themselves. */
  method ThirdRequest() returns (offset: nat)
    ensures offset == 18892
  {
    var freelist := new FreelistHelper();
    freelist.SetBins(HEADS);
    PopsAt(HEADS, 300, 6);
    offset := freelist.PopFreeEntryOffset(300);
  }
}
