/**
 * What deleting a long value does to the free lists. A freed chunk of `n` bytes becomes the head of the class of
 * `n + 32` bytes, but is linked to the head of the class of `n` bytes. When these are two classes, a block may end up
 * referred to twice, or no longer at all; here is exactly when.
 */
module FreedChunks {
  import opened Bytes
  import opened Layout
  import opened Freelist
  import opened Blocks

  /** The class a freed chunk of `n` bytes goes to; its link is taken from class `BinId(n)`. */
  function ClassOfFreed(n: nat): (k: nat)
    ensures k < BIN_COUNT
    ensures n + COMPLEX_DATA < U64 ==> 2 <= k && BinId(n) <= k
  { BinId((n + COMPLEX_DATA) % U64) }

  /** Freeing the chunk of `n` bytes in block `o`. */
  function ChunkFreed(st: State, o: nat, n: nat): State
    requires |st.bins| == BIN_COUNT
  {
    st.(used := st.used - {o},
        free := st.free[o := FreeComplex(st.bins[BinId(n)], n)],
        bins := st.bins[ClassOfFreed(n) := o])
  }

  /** Freeing the first chunk of a value, and the second one if the value has more than one. */
  function ValueFreed(st: State, blocks: seq<nat>, sizes: seq<nat>): State
    requires |st.bins| == BIN_COUNT && 1 <= |sizes| <= 2 && |sizes| <= |blocks|
  {
    var one := ChunkFreed(st, blocks[0], sizes[0]);
    if |sizes| == 1 then one else ChunkFreed(one, blocks[1], sizes[1])
  }

  /** The sizes of the chunks that are freed: of one chunk, or of the first two. */
  predicate ChunkSizes(sizes: seq<nat>) {
    1 <= |sizes| <= 2 && forall i | 0 <= i < |sizes| :: sizes[i] <= CLUSTER_SIZE
  }

  /**
   * Is no block referred to twice after the chunks have been freed? The head that a chunk is linked to must have been
   * none, or must have been replaced as the head of its class.
   */
  ghost predicate StaysApart(bins: seq<nat>, sizes: seq<nat>)
    requires |bins| == BIN_COUNT && ChunkSizes(sizes)
  {
    var b, c := BinId(sizes[0]), ClassOfFreed(sizes[0]);
    if |sizes| == 1 then bins[b] == 0 || b == c
    else
      var b', c' := BinId(sizes[1]), ClassOfFreed(sizes[1]);
      && (bins[b] == 0 || b == c || b == c')
      && (bins[b] == 0 || b != b' || b' == c)
      && ((bins[b'] == 0 && b' != c) || b' == c')
  }

  /** Does every block that was referred to stay so, and do the freed chunks become so? */
  ghost predicate KeepsAll(bins: seq<nat>, sizes: seq<nat>)
    requires |bins| == BIN_COUNT && ChunkSizes(sizes)
  {
    var b, c := BinId(sizes[0]), ClassOfFreed(sizes[0]);
    if |sizes| == 1 then bins[c] == 0 || b == c
    else
      var b', c' := BinId(sizes[1]), ClassOfFreed(sizes[1]);
      && (bins[c] == 0 || b == c)
      && (c == c' ==> b' == c)
      && (c != c' && bins[c'] != 0 ==> b == c' || b' == c')
  }

  /** Some list or some block leads to `o`. */
  ghost predicate Referred(free: map<nat, Free>, bins: seq<nat>, o: nat) {
    o in bins || exists q | q in free :: free[q].next == o
  }

  /** Every free block that could be reached still can be, and so can every block that has become free. */
  ghost predicate NothingLost(st: State, st': State) {
    forall o | o in st'.free && o != 0 && (o in st.free ==> Referred(st.free, st.bins, o)) ::
      Referred(st'.free, st'.bins, o)
  }

  // -------------------------------------------------------------- the structure stays

  /** Everything that `Sound` says, apart from the links. */
  ghost predicate Built(st: State) {
    Partitioned(st) && Tiled(st.extent, st.end) && Sized(st) && |st.bins| == BIN_COUNT
  }

  lemma ChunkFreedBuilt(st: State, o: nat, n: nat)
    requires Built(st) && o in st.used && n + COMPLEX_DATA <= st.extent[o] && COMPLEX_SIZE <= st.extent[o]
    ensures Built(ChunkFreed(st, o, n))
  {
    hide Tiled, BinId, ClassOfFreed;
    var r := ChunkFreed(st, o, n);
    assert Partitioned(r) by {
      hide Sized;
      assert r.live.Keys + r.free.Keys + r.used == st.extent.Keys;
    }
    assert Sized(r);
  }

  // ---------------------------------------------------------------------- the links

  lemma OneLinked(free: map<nat, Free>, extent: map<nat, nat>, bins: seq<nat>, o: nat, n: nat)
    requires free.Keys <= extent.Keys && |bins| == BIN_COUNT && RefsFree(free, extent, bins) && RefsApart(free, bins)
    requires o in extent && o !in free && o != 0 && COMPLEX_SIZE <= extent[o] && n <= CLUSTER_SIZE
    ensures var free', bins' := free[o := FreeComplex(bins[BinId(n)], n)], bins[ClassOfFreed(n) := o];
            RefsFree(free', extent, bins') && RefsApart(free', bins') <==> StaysApart(bins, [n])
  {
    var b, c := BinId(n), ClassOfFreed(n);
    var free', bins' := free[o := FreeComplex(bins[b], n)], bins[c := o];
    Unlinked(free, extent, bins, o);
    if bins[b] == 0 || b == c {
      forall q | q in free'
        ensures LinkFree(free', extent, q)
      {
        assert q != o ==> LinkFree(free, extent, q);
      }
    } else {
      assert bins'[b] == free'[o].next;
    }
  }

  /** Nothing leads to a block that is not free. */
  lemma Unlinked(free: map<nat, Free>, extent: map<nat, nat>, bins: seq<nat>, o: nat)
    requires free.Keys <= extent.Keys && |bins| == BIN_COUNT && RefsFree(free, extent, bins)
    requires o !in free && o != 0
    ensures o !in bins && forall q | q in free :: free[q].next != o
  {
    forall q | q in free
      ensures free[q].next != o
    {
      assert LinkFree(free, extent, q);
    }
  }

  lemma TwoLinked(free: map<nat, Free>, extent: map<nat, nat>, bins: seq<nat>, o: nat, n: nat, p: nat, m: nat)
    requires free.Keys <= extent.Keys && |bins| == BIN_COUNT && RefsFree(free, extent, bins) && RefsApart(free, bins)
    requires o in extent && o !in free && o != 0 && COMPLEX_SIZE <= extent[o] && n <= CLUSTER_SIZE
    requires p in extent && p !in free && p != 0 && COMPLEX_SIZE <= extent[p] && m <= CLUSTER_SIZE && o != p
    ensures var free1, bins1 := free[o := FreeComplex(bins[BinId(n)], n)], bins[ClassOfFreed(n) := o];
            var free2, bins2 := free1[p := FreeComplex(bins1[BinId(m)], m)], bins1[ClassOfFreed(m) := p];
            RefsFree(free2, extent, bins2) && RefsApart(free2, bins2) <==> StaysApart(bins, [n, m])
  {
    var free1, bins1 := free[o := FreeComplex(bins[BinId(n)], n)], bins[ClassOfFreed(n) := o];
    var free2, bins2 := free1[p := FreeComplex(bins1[BinId(m)], m)], bins1[ClassOfFreed(m) := p];
    Unlinked(free, extent, bins, o);
    Unlinked(free, extent, bins, p);
    if StaysApart(bins, [n, m]) {
      TwoLinkedApart(free, extent, bins, o, n, p, m);
    } else {
      TwoLinkedTwice(free, extent, bins, o, n, p, m);
    }
  }

  lemma TwoLinkedApart(free: map<nat, Free>, extent: map<nat, nat>, bins: seq<nat>, o: nat, n: nat, p: nat, m: nat)
    requires free.Keys <= extent.Keys && |bins| == BIN_COUNT && RefsFree(free, extent, bins) && RefsApart(free, bins)
    requires o in extent && o !in free && o != 0 && COMPLEX_SIZE <= extent[o] && n <= CLUSTER_SIZE
    requires p in extent && p !in free && p != 0 && COMPLEX_SIZE <= extent[p] && m <= CLUSTER_SIZE && o != p
    requires o !in bins && forall q | q in free :: free[q].next != o
    requires p !in bins && forall q | q in free :: free[q].next != p
    requires StaysApart(bins, [n, m])
    ensures var free1, bins1 := free[o := FreeComplex(bins[BinId(n)], n)], bins[ClassOfFreed(n) := o];
            var free2, bins2 := free1[p := FreeComplex(bins1[BinId(m)], m)], bins1[ClassOfFreed(m) := p];
            RefsFree(free2, extent, bins2) && RefsApart(free2, bins2)
  {
    var b, c, b', c' := BinId(n), ClassOfFreed(n), BinId(m), ClassOfFreed(m);
    var free1, bins1 := free[o := FreeComplex(bins[b], n)], bins[c := o];
    var free2, bins2 := free1[p := FreeComplex(bins1[b'], m)], bins1[c' := p];
    hide BinId, ClassOfFreed;
    assert free2[o].next == bins[b] && free2[p].next == bins1[b'];
    assert RefsFree(free2, extent, bins2) by {
      hide RefsApart;
      forall q | q in free2
        ensures LinkFree(free2, extent, q)
      {
        assert q != o && q != p ==> LinkFree(free, extent, q);
      }
    }
    hide RefsFree;
    NewLinksApart(free, bins, o, FreeComplex(bins[b], n), p, FreeComplex(bins1[b'], m), bins2);
  }

  /** Two new blocks whose links nothing else shares. */
  lemma NewLinksApart(free: map<nat, Free>, bins: seq<nat>, o: nat, f: Free, p: nat, g: Free, bins': seq<nat>)
    requires |bins| == |bins'| == BIN_COUNT && RefsApart(free, bins) && o !in free && p !in free && o != p
    requires forall i | 0 <= i < BIN_COUNT && bins'[i] != 0 :: bins'[i] == bins[i] || bins'[i] == o || bins'[i] == p
    requires forall i, j | 0 <= i < j < BIN_COUNT && bins'[i] != 0 :: bins'[i] != bins'[j]
    requires forall i | 0 <= i < BIN_COUNT && bins'[i] != 0 :: f.next != bins'[i] && g.next != bins'[i]
    requires f.next != 0 ==> f.next != g.next
    requires forall q | q in free && free[q].next != 0 ::
               free[q].next != f.next && free[q].next != g.next && free[q].next != o && free[q].next != p
    ensures RefsApart(free[o := f][p := g], bins')
  {
  }

  lemma TwoLinkedTwice(free: map<nat, Free>, extent: map<nat, nat>, bins: seq<nat>, o: nat, n: nat, p: nat, m: nat)
    requires |bins| == BIN_COUNT && n <= CLUSTER_SIZE && m <= CLUSTER_SIZE
    requires o != 0 && p != 0 && o != p
    requires !StaysApart(bins, [n, m])
    ensures var free1, bins1 := free[o := FreeComplex(bins[BinId(n)], n)], bins[ClassOfFreed(n) := o];
            var free2, bins2 := free1[p := FreeComplex(bins1[BinId(m)], m)], bins1[ClassOfFreed(m) := p];
            !RefsApart(free2, bins2)
  {
    var b, c, b', c' := BinId(n), ClassOfFreed(n), BinId(m), ClassOfFreed(m);
    var free1, bins1 := free[o := FreeComplex(bins[b], n)], bins[c := o];
    var free2, bins2 := free1[p := FreeComplex(bins1[b'], m)], bins1[c' := p];
    hide BinId, ClassOfFreed;
    assert free2[o].next == bins[b] && free2[p].next == bins1[b'];
    if bins[b] != 0 && b != c && b != c' {
      assert bins2[b] == free2[o].next;
    } else if bins1[b'] != 0 && b' != c' {
      assert bins2[b'] == free2[p].next;
    } else {
      assert bins[b] != 0 && b == b' && b != c;
      assert free2[o].next == free2[p].next != 0;
    }
  }

  /**
   * The volume stays intact exactly if the classes that the freed chunks are linked to are empty, or are the ones they
   * are put into, or lose their heads to the other chunk.
   */
  lemma IntactExactly(st: State, blocks: seq<nat>, sizes: seq<nat>)
    requires Sound(st) && ChunkSizes(sizes) && |sizes| <= |blocks|
    requires forall i | 0 <= i < |sizes| ::
               blocks[i] in st.used && sizes[i] + COMPLEX_DATA <= st.extent[blocks[i]] && COMPLEX_SIZE <= st.extent[blocks[i]]
    requires |sizes| == 2 ==> blocks[0] != blocks[1]
    ensures Built(ValueFreed(st, blocks, sizes))
    ensures Sound(ValueFreed(st, blocks, sizes)) <==> StaysApart(st.bins, sizes)
  {
    hide RefsFree, RefsApart, StaysApart, ClassOfFreed, BinId;
    ChunkFreedBuilt(st, blocks[0], sizes[0]);
    if |sizes| == 1 {
      OneLinked(st.free, st.extent, st.bins, blocks[0], sizes[0]);
      assert sizes == [sizes[0]];
    } else {
      ChunkFreedBuilt(ChunkFreed(st, blocks[0], sizes[0]), blocks[1], sizes[1]);
      TwoLinked(st.free, st.extent, st.bins, blocks[0], sizes[0], blocks[1], sizes[1]);
      assert sizes == [sizes[0], sizes[1]];
    }
  }

  // -------------------------------------------------------------------- nothing is lost

  lemma OneKept(free: map<nat, Free>, bins: seq<nat>, o: nat, n: nat, p: nat)
    requires |bins| == BIN_COUNT && RefsApart(free, bins) && n <= CLUSTER_SIZE && o != 0 && o !in free
    requires o !in bins && forall q | q in free :: free[q].next != o
    ensures var free', bins' := free[o := FreeComplex(bins[BinId(n)], n)], bins[ClassOfFreed(n) := o];
            && Referred(free', bins', o)
            && (KeepsAll(bins, [n]) && Referred(free, bins, p) && p != 0 ==> Referred(free', bins', p))
            && (!KeepsAll(bins, [n]) && p == bins[ClassOfFreed(n)] ==> p != 0 && !Referred(free', bins', p))
  {
    hide BinId, ClassOfFreed;
    var b, c := BinId(n), ClassOfFreed(n);
    var free', bins' := free[o := FreeComplex(bins[b], n)], bins[c := o];
    assert bins'[c] == o && free'[o].next == bins[b];
    if KeepsAll(bins, [n]) && Referred(free, bins, p) && p != 0 {
      StillReferred(free, free', bins, bins', c, p);
    }
    if !KeepsAll(bins, [n]) && p == bins[c] {
      forall q | q in free'
        ensures free'[q].next != p
      {
        assert q != o ==> q in free;
      }
    }
  }

  /** Replacing one head takes no reference away but the one to the old head. */
  lemma StillReferred(free: map<nat, Free>, free': map<nat, Free>, bins: seq<nat>, bins': seq<nat>, c: nat, p: nat)
    requires |bins| == |bins'| == BIN_COUNT && c < BIN_COUNT && Referred(free, bins, p)
    requires forall q | q in free :: q in free' && free'[q] == free[q]
    requires forall i | 0 <= i < BIN_COUNT && i != c :: bins'[i] == bins[i]
    ensures Referred(free', bins', p) || p == bins[c]
  {
    if p in bins {
      var i :| 0 <= i < |bins| && bins[i] == p;
      assert i != c ==> bins'[i] == p;
    } else {
      var q :| q in free && free[q].next == p;
      assert free'[q].next == p;
    }
  }

  lemma TwoKept(free: map<nat, Free>, bins: seq<nat>, o: nat, n: nat, r: nat, m: nat, p: nat)
    requires |bins| == BIN_COUNT && RefsApart(free, bins)
    requires n <= CLUSTER_SIZE && m <= CLUSTER_SIZE && o != 0 && r != 0 && o != r && o !in free && r !in free
    requires o !in bins && forall q | q in free :: free[q].next != o
    requires r !in bins && forall q | q in free :: free[q].next != r
    ensures var free1, bins1 := free[o := FreeComplex(bins[BinId(n)], n)], bins[ClassOfFreed(n) := o];
            var free2, bins2 := free1[r := FreeComplex(bins1[BinId(m)], m)], bins1[ClassOfFreed(m) := r];
            && Referred(free2, bins2, r)
            && (KeepsAll(bins, [n, m]) ==>
                  Referred(free2, bins2, o) && (Referred(free, bins, p) && p != 0 ==> Referred(free2, bins2, p)))
            && (!KeepsAll(bins, [n, m]) ==> Lost(free, free2, bins, bins2, o, n, m))
  {
    hide BinId, ClassOfFreed;
    var b, c, b', c' := BinId(n), ClassOfFreed(n), BinId(m), ClassOfFreed(m);
    var free1, bins1 := free[o := FreeComplex(bins[b], n)], bins[c := o];
    var free2, bins2 := free1[r := FreeComplex(bins1[b'], m)], bins1[c' := r];
    assert bins2[c'] == r && free2[o].next == bins[b] && free2[r].next == bins1[b'];
    if KeepsAll(bins, [n, m]) {
      assert if c == c' then free2[r].next == o else bins2[c] == o;
      if Referred(free, bins, p) && p != 0 {
        StillReferred(free, free1, bins, bins1, c, p);
        if p != bins[c] {
          StillReferred(free1, free2, bins1, bins2, c', p);
        }
      }
    } else {
      TwoLost(free, bins, o, n, r, m);
    }
  }

  /** A block that nothing leads to any more: an old head, or the first of the freed chunks. */
  ghost predicate Lost(free: map<nat, Free>, free': map<nat, Free>, bins: seq<nat>, bins': seq<nat>, o: nat, n: nat,
                       m: nat)
    requires |bins| == BIN_COUNT
  {
    || !Referred(free', bins', o)
    || (bins[ClassOfFreed(n)] != 0 && !Referred(free', bins', bins[ClassOfFreed(n)]))
    || (bins[ClassOfFreed(m)] != 0 && !Referred(free', bins', bins[ClassOfFreed(m)]))
  }

  lemma TwoLost(free: map<nat, Free>, bins: seq<nat>, o: nat, n: nat, r: nat, m: nat)
    requires |bins| == BIN_COUNT && RefsApart(free, bins)
    requires n <= CLUSTER_SIZE && m <= CLUSTER_SIZE && o != 0 && r != 0 && o != r && o !in free && r !in free
    requires o !in bins && forall q | q in free :: free[q].next != o
    requires r !in bins && forall q | q in free :: free[q].next != r
    requires !KeepsAll(bins, [n, m])
    ensures var free1, bins1 := free[o := FreeComplex(bins[BinId(n)], n)], bins[ClassOfFreed(n) := o];
            var free2, bins2 := free1[r := FreeComplex(bins1[BinId(m)], m)], bins1[ClassOfFreed(m) := r];
            Lost(free, free2, bins, bins2, o, n, m)
  {
    hide BinId, ClassOfFreed;
    var b, c, b', c' := BinId(n), ClassOfFreed(n), BinId(m), ClassOfFreed(m);
    var free1, bins1 := free[o := FreeComplex(bins[b], n)], bins[c := o];
    var free2, bins2 := free1[r := FreeComplex(bins1[b'], m)], bins1[c' := r];
    var x := if bins[c] != 0 && b != c then bins[c] else if c == c' then o else bins[c'];
    assert free2[o].next == bins[b] && free2[r].next == bins1[b'];
    forall q | q in free2
      ensures free2[q].next != x
    {
      assert q != o && q != r ==> q in free && free2[q] == free[q];
    }
    assert x !in bins2;
  }

  lemma KeptExactly(st: State, blocks: seq<nat>, sizes: seq<nat>)
    requires Sound(st) && ChunkSizes(sizes) && |sizes| <= |blocks|
    requires forall i | 0 <= i < |sizes| :: blocks[i] in st.used
    requires |sizes| == 2 ==> blocks[0] != blocks[1]
    ensures NothingLost(st, ValueFreed(st, blocks, sizes)) <==> KeepsAll(st.bins, sizes)
  {
    hide RefsFree, RefsApart, KeepsAll, Referred, ClassOfFreed, BinId;
    var r, o := ValueFreed(st, blocks, sizes), blocks[0];
    Unlinked(st.free, st.extent, st.bins, o);
    if |sizes| == 1 {
      assert sizes == [sizes[0]];
      OneKept(st.free, st.bins, o, sizes[0], st.bins[ClassOfFreed(sizes[0])]);
      forall p | p in st.free
        ensures KeepsAll(st.bins, sizes) && Referred(st.free, st.bins, p) && p != 0 ==> Referred(r.free, r.bins, p)
      {
        OneKept(st.free, st.bins, o, sizes[0], p);
      }
      HeadsReferred(st, ClassOfFreed(sizes[0]));
    } else {
      assert sizes == [sizes[0], sizes[1]];
      Unlinked(st.free, st.extent, st.bins, blocks[1]);
      TwoKept(st.free, st.bins, o, sizes[0], blocks[1], sizes[1], 0);
      forall p | p in st.free
        ensures KeepsAll(st.bins, sizes) && Referred(st.free, st.bins, p) && p != 0 ==> Referred(r.free, r.bins, p)
      {
        TwoKept(st.free, st.bins, o, sizes[0], blocks[1], sizes[1], p);
      }
      HeadsReferred(st, ClassOfFreed(sizes[0]));
      HeadsReferred(st, ClassOfFreed(sizes[1]));
    }
  }

  lemma HeadsReferred(st: State, k: nat)
    requires Sound(st) && k < BIN_COUNT
    ensures st.bins[k] != 0 ==> st.bins[k] in st.free && Referred(st.free, st.bins, st.bins[k])
  {
  }

  // -------------------------------------------------------------- whatever the lists hold

  /** The two classes of a chunk are the same exactly if no limit lies within 32 bytes above its size. */
  lemma SameClassExactly(n: nat)
    requires n + COMPLEX_DATA < U64
    ensures BinId(n) == ClassOfFreed(n) <==> forall i | 0 <= i < BIN_COUNT - 1 :: !(n <= LIMITS[i] < n + COMPLEX_DATA)
  {
    hide BinId;
    var b := BinId(n);
    BinIdIsLeast(n, b);
    BinIdIsLeast(n + COMPLEX_DATA, b);
    assert forall i | b < i < BIN_COUNT - 1 :: LIMITS[b] < LIMITS[i];
  }

  /** Does each of these chunks go to the class it is linked to? */
  ghost predicate SameClasses(sizes: seq<nat>) {
    forall i | 0 <= i < |sizes| :: BinId(sizes[i]) == ClassOfFreed(sizes[i])
  }

  /** Then the volume stays intact and loses nothing, whatever is in the lists. */
  lemma SameClassesSuffice(bins: seq<nat>, sizes: seq<nat>)
    requires |bins| == BIN_COUNT && ChunkSizes(sizes) && SameClasses(sizes)
    ensures StaysApart(bins, sizes) && KeepsAll(bins, sizes)
  {
  }
}
