/** One allocation as a step of the block state: growing if necessary, taking a block, cutting it. */
module Allocation {
  import opened Layout
  import opened Freelist
  import opened Blocks
  import opened Shape

  /** Taking the head of class `k`, its link going to class `j`, and cutting it to `entry` bytes if it is larger. */
  function Allocate(st: State, k: nat, j: nat, entry: nat): State
    requires |st.bins| == BIN_COUNT && k < BIN_COUNT && j < BIN_COUNT && st.bins[k] in st.free
  {
    var o := st.bins[k];
    var f := st.free[o];
    var d := Detach(st, k, j);
    if f.FreeComplex? && entry <= f.size then Cut(d, o, entry, f.size - entry) else d
  }

  /** `st'` is `st` after an allocation of `entry` bytes from class `k` that returned `o`. */
  ghost predicate Allocated(st: State, st': State, entry: nat, o: nat, k: nat) {
    && |st.bins| == BIN_COUNT && k < BIN_COUNT && PopBin(st.bins, entry) == k && st.bins[k] == o && o in st.free
    && exists j | 0 <= j < BIN_COUNT :: LinkBin(st, st.free[o], j) && st' == Allocate(st, k, j, entry)
  }

  /** The block handed out was free, is in use now, and is large enough for the simple header asked for. */
  lemma AllocatedSound(st: State, st': State, entry: nat, o: nat, k: nat)
    requires Sound(st) && 0 < entry && Allocated(st, st', entry, o, k)
    ensures Sound(st')
    ensures o in st'.used && st'.used == st.used + {o} && st'.live == st.live
    ensures o !in st.used && o !in st.live
    ensures entry <= SIMPLE8_SIZE ==> entry <= st'.extent[o]
    ensures forall p | p in st.extent && p != o :: p in st'.extent && st'.extent[p] == st.extent[p]
    ensures o in st.extent && st'.extent[o] <= st.extent[o]
    ensures st'.extent[o] == st.extent[o] || entry <= st'.extent[o]
  {
    hide Sound, LinkBin, PopBin;
    var j :| 0 <= j < BIN_COUNT && LinkBin(st, st.free[o], j) && st' == Allocate(st, k, j, entry);
    DetachSound(st, k, j);
    var f := st.free[o];
    FreeFacts(st, o);
    EntryFits(st, entry, k);
    if f.FreeComplex? && entry <= f.size {
      CutSound(Detach(st, k, j), o, entry, f.size - entry);
      CutKeeps(Detach(st, k, j), o, entry, f.size - entry);
    }
  }

  lemma FreeFacts(st: State, o: nat)
    requires Sound(st) && o in st.free
    ensures o in st.extent && o !in st.used && o !in st.live && DATA_START <= o && FreeSized(st.free[o], st.extent[o])
    ensures st.extent[o] <= CLUSTER_SIZE
  {
  }

  /** A class that admits an entry of 12 or 16 bytes never hands out a smaller block. */
  lemma EntryFits(st: State, entry: nat, k: nat)
    requires Sound(st) && PopBin(st.bins, entry) == k && k < BIN_COUNT
    ensures st.bins[k] in st.free
    ensures entry <= SIMPLE8_SIZE ==> entry <= st.extent[st.bins[k]]
  {
    if entry <= SIMPLE8_SIZE {
      assert entry <= LIMITS[k];
    }
  }

  lemma CutKeeps(st: State, o: nat, entry: nat, size: nat)
    requires Sound(st) && o in st.used && 0 < entry && entry + size + COMPLEX_DATA <= st.extent[o]
    ensures |st.bins| == BIN_COUNT
    ensures var r := Cut(st, o, entry, size);
            && r.used == st.used && r.live == st.live && o in r.extent && entry <= r.extent[o] <= st.extent[o]
            && (forall p | p in st.extent && p != o :: p in r.extent && r.extent[p] == st.extent[p])
            && (size < SIMPLE4_SIZE ==> r == st)
  {
    CutApart(st.extent, o, entry, Behind(st.extent, o, entry));
  }

  /** The lists after an allocation in a volume of fixed-size values. */
  function AllocateLists(st: State, q: Lists, k: nat, entry: nat): Lists
    requires |st.bins| == BIN_COUNT && k < BIN_COUNT && st.bins[k] in st.free
  {
    var o := st.bins[k];
    var f := st.free[o];
    if f.FreeComplex? && entry <= f.size then Split(Taken(q, k), o + entry, f.size - entry) else Taken(q, k)
  }

  /** An allocation for a fixed-size value keeps the shape of the lists: no free block is lost or shared. */
  lemma AllocatedShaped(st: State, q: Lists, st': State, entry: nat, o: nat, k: nat)
    requires Sound(st) && Shaped(st, q) && Allocated(st, st', entry, o, k)
    requires entry == SIMPLE4_SIZE || entry == SIMPLE8_SIZE
    ensures Shaped(st', AllocateLists(st, q, k, entry))
  {
    hide Sound, Shaped, LinkBin, PopBin, AllWhole, Cut, Split, Decreasing;
    var j :| 0 <= j < BIN_COUNT && LinkBin(st, st.free[o], j) && st' == Allocate(st, k, j, entry);
    var d, f := Detach(st, k, j), st.free[o];
    FreeFacts(st, o);
    HeadKinds(st, q);
    DetachShaped(st, q, k, j);
    if f.FreeComplex? && entry <= f.size {
      assert k >= 2;
      ExactBlock(st, q, o);
      NoMiddleLeft(st, q, entry, k);
      BehindIsFresh(st, o, entry);
      if f.size - entry > 2048 {
        assert k == 10;
        LargeBelow(st, q);
        CutToLarge(d, Taken(q, k), o, entry, f.size - entry);
      } else {
        CutToMiddle(d, Taken(q, k), o, entry, f.size - entry);
      }
    }
  }

  /** The cluster class serves a small entry only when the classes before it are empty. */
  lemma NoMiddleLeft(st: State, q: Lists, entry: nat, k: nat)
    requires Shaped(st, q) && 2 <= k < BIN_COUNT && entry <= SIMPLE8_SIZE && PopBin(st.bins, entry) == k
    ensures Taken(q, k).middle == []
  {
    if q.middle != [] {
      FirstFitServes(st.bins, entry, MiddleClass(st.free[q.middle[0]]));
    }
  }

  lemma BehindIsFresh(st: State, o: nat, entry: nat)
    requires Sound(st) && o in st.extent && 0 < entry < st.extent[o]
    ensures o + entry !in st.extent && o + entry !in st.free
  {
  }

  lemma LargeBelow(st: State, q: Lists)
    requires Shaped(st, q) && st.bins[10] != 0
    ensures q.large != [] && forall p | p in q.large[1..] :: p < st.bins[10]
  {
  }
}
