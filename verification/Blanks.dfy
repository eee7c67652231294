/**
 * What a volume of fixed-size values holds where nobody writes: free complex blocks have no sequel, and a simple block at
 * the head of class 2, the remainder of such a block, has zeros where a complex block has its chunk size.
 */
module Blanks {
  import opened Bytes
  import opened Layout
  import opened Freelist
  import opened Blocks
  import opened Image
  import opened Shape
  import opened DataReaderWriter
  import opened Segregation

  ghost predicate BlankAt(bytes: seq<byte>, o: nat) {
    o + COMPLEX_SIZE <= |bytes| && Sequel(bytes, o) == 0
  }

  ghost predicate Blank(bytes: seq<byte>, st: State) {
    && |st.bins| == BIN_COUNT
    && (forall o {:trigger BlankAt(bytes, o)} | o in st.free && st.free[o].FreeComplex? :: BlankAt(bytes, o))
    && (SimpleTwo(st) ==> st.bins[2] + COMPLEX_SIZE <= |bytes| && ChunkSize(bytes, st.bins[2]) == 0)
  }

  /**
   * A small complex block at the head of a class links to nothing, and no head links to a simple block or one that would
   * go to class 2.
   */
  ghost predicate Lone(st: State) {
    && |st.bins| == BIN_COUNT
    && forall k | 0 <= k < BIN_COUNT && st.bins[k] != 0 && st.bins[k] in st.free && st.free[st.bins[k]].FreeComplex? ::
         var f := st.free[st.bins[k]];
         && (f.size <= 64 ==> f.next == 0)
         && (f.next != 0 ==> f.next in st.free && st.free[f.next].FreeComplex? && COMPLEX_DATA < st.free[f.next].size)
  }

  lemma ShapedLone(st: State, q: Lists)
    requires Shaped(st, q)
    ensures Lone(st)
  {
    forall k | 0 <= k < BIN_COUNT && st.bins[k] != 0 && st.bins[k] in st.free && st.free[st.bins[k]].FreeComplex?
      ensures var f := st.free[st.bins[k]];
              && (f.size <= 64 ==> f.next == 0)
              && (f.next != 0 ==> f.next in st.free && st.free[f.next].FreeComplex? && COMPLEX_DATA < st.free[f.next].size)
    {
      HeadLone(st, q, k);
    }
  }

  lemma HeadLone(st: State, q: Lists, k: nat)
    requires Shaped(st, q) && k < BIN_COUNT && st.bins[k] != 0 && st.bins[k] in st.free
    requires st.free[st.bins[k]].FreeComplex?
    ensures var f := st.free[st.bins[k]];
            && (f.size <= 64 ==> f.next == 0)
            && (f.next != 0 ==> f.next in st.free && st.free[f.next].FreeComplex? && COMPLEX_DATA < st.free[f.next].size)
  {
    ExactBlock(st, q, st.bins[k]);
    HeadKinds(st, q);
    if k == 10 {
      hide Covered, MiddleAt, AllFree4, AllFree8, Exact;
      assert NodeAt(st.free, q.large, 0);
      assert |q.large| > 1 ==> q.large[1] in q.large[1..];
    } else {
      hide ListAt, LargeAt, Covered, AllFree4, AllFree8, Exact;
    }
  }

  /** Zero is the number of zero bytes only. */
  lemma {:induction false} DecodeZero(s: seq<byte>)
    ensures Decode(s) == 0 <==> forall i | 0 <= i < |s| :: s[i] == 0
  {
    if |s| > 0 {
      DecodeZero(s[1..]);
      assert forall i | 1 <= i < |s| :: s[i] == s[1..][i - 1];
      assert forall i | 0 <= i < |s| - 1 :: s[1..][i] == s[i + 1];
    }
  }

  /** A complex header without sequel and link ends in zeros. */
  lemma HeaderEndsBlank(bytes: seq<byte>, o: nat)
    requires BlankAt(bytes, o) && UnpackComplex(bytes[o..o + COMPLEX_SIZE]).next == 0
    ensures Decode(bytes[o + 28..o + 36]) == 0 && Decode(bytes[o + 32..o + 40]) == 0
  {
    hide Decode;
    var h := bytes[o..o + COMPLEX_SIZE];
    DecodeZero(h[24..32]);
    DecodeZero(h[32..40]);
    forall i | 24 <= i < 40
      ensures h[i] == 0
    {
      assert i < 32 ==> h[i] == h[24..32][i - 24];
      assert i >= 32 ==> h[i] == h[32..40][i - 32];
    }
    DecodeZero(h[28..36]);
    SliceOfSlice(bytes, o, o + COMPLEX_SIZE, 28, 36);
    SliceOfSlice(bytes, o, o + COMPLEX_SIZE, 32, 40);
  }

  lemma BlankSame(bytes: seq<byte>, bytes': seq<byte>, o: nat, size: nat)
    requires SameBlock(bytes, bytes', o, size) && COMPLEX_SIZE <= size
    ensures BlankAt(bytes, o) <==> BlankAt(bytes', o)
    ensures o + COMPLEX_SIZE <= |bytes| && o + COMPLEX_SIZE <= |bytes'| && ChunkSize(bytes', o) == ChunkSize(bytes, o)
  {
    SameShorter(bytes, bytes', o, size, COMPLEX_SIZE);
  }

  /** Free blocks that keep their bytes stay blank. */
  lemma BlankKept(bytes: seq<byte>, bytes': seq<byte>, st: State, st': State)
    requires Sound(st) && Blank(bytes, st) && |st'.bins| == BIN_COUNT
    requires forall o | o in st.free && COMPLEX_SIZE <= st.extent[o] :: SameBlock(bytes, bytes', o, st.extent[o])
    requires forall o | o in st'.free && st'.free[o].FreeComplex? :: o in st.free && st.free[o].FreeComplex?
    requires SimpleTwo(st') ==> st'.bins[2] == st.bins[2] && SimpleTwo(st)
    ensures Blank(bytes', st')
  {
    hide SameBlock, BlankAt;
    forall o | o in st'.free && st'.free[o].FreeComplex?
      ensures BlankAt(bytes', o)
    {
      FreeIsWide(st, o);
      assert BlankAt(bytes, o);
      BlankSame(bytes, bytes', o, st.extent[o]);
    }
    if SimpleTwo(st') {
      HeadTwoIsWide(st);
      BlankSame(bytes, bytes', st.bins[2], st.extent[st.bins[2]]);
    }
  }

  lemma FreeIsWide(st: State, o: nat)
    requires Sound(st) && o in st.free && st.free[o].FreeComplex?
    ensures o in st.extent && COMPLEX_SIZE <= st.extent[o]
  {
  }

  lemma HeadTwoIsWide(st: State)
    requires Sound(st)
    ensures |st.bins| == BIN_COUNT
    ensures st.bins[2] != 0 ==> st.bins[2] in st.free && st.bins[2] in st.extent && COMPLEX_SIZE <= st.extent[st.bins[2]]
  {
  }

  /** A write into a block that is not free, which may become a simple free one, leaves the others blank. */
  lemma BlankElsewhere(bytes: seq<byte>, bytes': seq<byte>, st: State, st': State, o: nat)
    requires Sound(st) && Blank(bytes, st) && o !in st.free && Kept(bytes, bytes', st.extent - {o})
    requires |st'.bins| == BIN_COUNT && st'.bins[2] == st.bins[2] && st'.free - {o} == st.free
    requires o in st'.free ==> !st'.free[o].FreeComplex?
    ensures Blank(bytes', st')
  {
    hide SameBlock, BlankAt;
    FreeInExtent(st);
    HeadTwoIsWide(st);
    forall q | q in st.free
      ensures q in st.extent && SameBlock(bytes, bytes', q, st.extent[q])
      ensures q in st'.free && st'.free[q] == st.free[q]
    {
      assert q in st.extent - {o} && q in st'.free - {o};
    }
    forall q | q in st'.free && st'.free[q].FreeComplex?
      ensures q in st.free && st.free[q].FreeComplex?
    {
      assert q in st'.free - {o};
    }
    BlankKept(bytes, bytes', st, st');
  }

  /** Taking the head of a class. */
  lemma BlankDetach(bytes: seq<byte>, st: State, k: nat, j: nat)
    requires Blank(bytes, st) && Lone(st) && k < BIN_COUNT && j < BIN_COUNT && st.bins[k] != 0 && st.bins[k] in st.free
    requires LinkBin(st, st.free[st.bins[k]], j)
    ensures Blank(bytes, Detach(st, k, j))
  {
    hide BlankAt, ChunkSize;
    var r, f := Detach(st, k, j), st.free[st.bins[k]];
    assert j == 2 ==> f.next == 0 by {
      if f.FreeComplex? && f.next != 0 {
        assert j == BinId(st.free[f.next].size + COMPLEX_DATA);
      }
    }
    forall o | o in r.free && r.free[o].FreeComplex?
      ensures BlankAt(bytes, o)
    {
      assert o in st.free;
    }
  }

  /** Are the bytes blank where the remainder of a cut would have its chunk size? */
  ghost predicate BlankBehind(bytes: seq<byte>, p: nat, size: nat) {
    16 < size <= COMPLEX_SIZE ==> p + 24 <= |bytes| && Decode(bytes[p + 16..p + 24]) == 0
  }

  /** Does a cut at `p` with this header for the remainder leave everything blank that was? */
  ghost predicate CutsBlank(bytes: seq<byte>, st: State, p: nat, size: nat, image: seq<byte>) {
    && Blank(bytes, st) && BlankBehind(bytes, p, size)
    && (COMPLEX_SIZE < size ==> |image| == COMPLEX_SIZE && UnpackComplex(image).sequel == 0)
  }

  /** Cutting a block: the header of the remainder is written, and what lies behind a simple one stays. */
  lemma BlankCut(bytes: seq<byte>, st: State, o: nat, entry: nat, size: nat, image: seq<byte>)
    requires Sound(st) && Holds(bytes, st) && Blank(bytes, st) && o in st.used && 0 < entry && SIMPLE4_SIZE <= size
    requires entry + size + COMPLEX_DATA <= st.extent[o] && BlankBehind(bytes, o + entry, size)
    requires |image| == HeaderSize(Remainder(st.bins, size)) && FreeImage(image, Remainder(st.bins, size))
    requires COMPLEX_SIZE < size ==> UnpackComplex(image).sequel == 0
    ensures o + entry <= |bytes| && Blank(Splice(bytes, o + entry, image), Cut(st, o, entry, size))
  {
    hide Splice, BinId, Sound, Holds, FreeImage, BlankAt, Kept;
    CutInside(bytes, st, o, entry, size);
    HoldsCut(bytes, st, o, entry, size, image);
    SpliceAt(bytes, o + entry, image);
    RemainderKind(st.bins, size);
    var p, bytes', r := o + entry, Splice(bytes, o + entry, image), Cut(st, o, entry, size);
    if COMPLEX_SIZE < size {
      WrittenBlank(bytes', p, image);
    }
    forall q | q in r.free && r.free[q].FreeComplex?
      ensures BlankAt(bytes', q)
    {
      if q != p {
        assert BlankAt(bytes, q);
        FreeIsWide(st, q);
        OtherBlank(bytes, bytes', st, o, entry, q);
      }
    }
    hide Remainder;
    if SimpleTwo(r) {
      if BinId(size) == 2 {
        BehindRemainder(bytes, p, size, image);
      } else {
        HeadTwoIsWide(st);
        assert SimpleTwo(st);
        OtherBlank(bytes, bytes', st, o, entry, st.bins[2]);
      }
    }
  }

  lemma WrittenBlank(bytes: seq<byte>, p: nat, image: seq<byte>)
    requires |image| == COMPLEX_SIZE && p + COMPLEX_SIZE <= |bytes| && bytes[p..p + COMPLEX_SIZE] == image
    ensures BlankAt(bytes, p) <==> UnpackComplex(image).sequel == 0
  {
  }

  lemma CutInside(bytes: seq<byte>, st: State, o: nat, entry: nat, size: nat)
    requires Sound(st) && Holds(bytes, st) && o in st.used && 0 < entry && entry + size + COMPLEX_DATA <= st.extent[o]
    ensures o + entry + size + COMPLEX_DATA <= |bytes| && |st.bins| == BIN_COUNT && o !in st.free
    ensures o + entry !in st.free
  {
    CutApart(st.extent, o, entry, st.extent[o] - entry);
  }

  lemma RemainderKind(bins: seq<nat>, size: nat)
    requires |bins| == BIN_COUNT && SIMPLE4_SIZE <= size
    ensures Remainder(bins, size).FreeComplex? <==> COMPLEX_SIZE < size
    ensures HeaderSize(Remainder(bins, size)) == COMPLEX_SIZE <==> COMPLEX_SIZE < size
    ensures BinId(size) == 2 && size <= COMPLEX_SIZE ==> 16 < size && HeaderSize(Remainder(bins, size)) == 16
  {
  }

  /** A free block other than the one that is cut keeps its bytes. */
  lemma OtherBlank(bytes: seq<byte>, bytes': seq<byte>, st: State, o: nat, entry: nat, q: nat)
    requires Sound(st) && Kept(bytes, bytes', st.extent[o := entry]) && q in st.free && q != o
    requires COMPLEX_SIZE <= st.extent[q]
    ensures BlankAt(bytes, q) <==> BlankAt(bytes', q)
    ensures q + COMPLEX_SIZE <= |bytes| && q + COMPLEX_SIZE <= |bytes'| && ChunkSize(bytes', q) == ChunkSize(bytes, q)
  {
    assert q in st.extent[o := entry];
    BlankSame(bytes, bytes', q, st.extent[q]);
  }

  lemma BehindRemainder(bytes: seq<byte>, p: nat, size: nat, image: seq<byte>)
    requires BlankBehind(bytes, p, size) && 16 < size <= COMPLEX_SIZE && |image| == 16 && p + COMPLEX_SIZE <= |bytes|
    ensures |Splice(bytes, p, image)| == |bytes| && ChunkSize(Splice(bytes, p, image), p) == 0
  {
    var r := Splice(bytes, p, image);
    SpliceElsewhere(bytes, p, image, p + 16, p + 24);
    assert r[p..p + COMPLEX_SIZE][16..24] == r[p + 16..p + 24];
  }

  // ------------------------------------------------------------------------ growth

  /** New clusters have no sequels. */
  lemma BlankGrown(bytes: seq<byte>, bytes': seq<byte>, st: State, count: nat)
    requires Sound(st) && Blank(bytes, st) && Kept(bytes, bytes', st.extent)
    requires forall i: nat | i < count :: BlankAt(bytes', st.end + CLUSTER_SIZE * i)
    ensures Blank(bytes', Clusters(st, count))
  {
    hide BlankAt, SameBlock, Clusters;
    var r := Clusters(st, count);
    ClustersEnd(st, count);
    forall o | o in r.free && r.free[o].FreeComplex?
      ensures BlankAt(bytes', o)
    {
      ClustersOld(st, count, o);
      if o in st.free {
        FreeIsWide(st, o);
        assert BlankAt(bytes, o);
        BlankSame(bytes, bytes', o, st.extent[o]);
      } else {
        var i := ClustersOnly(st, count, o);
      }
    }
    if SimpleTwo(r) {
      HeadTwoIsWide(st);
      ClustersOld(st, count, st.bins[2]);
      BlankSame(bytes, bytes', st.bins[2], st.extent[st.bins[2]]);
    }
  }

  lemma BlankHead(bytes: seq<byte>, st: State, o: nat)
    requires Blank(bytes, st)
    ensures Blank(bytes, st.(bins := st.bins[BIN_COUNT - 1 := o]))
  {
  }

  /** A growth puts a large block into the cluster class. */
  lemma GrownLone(st: State, count: nat)
    requires Sound(st) && Lone(st) && count > 0
    ensures Lone(Grown(st, count))
  {
    hide Clusters, Sound;
    var g := Grown(st, count);
    ClustersEnd(st, count);
    SoundHeads(st);
    forall k | 0 <= k < BIN_COUNT && g.bins[k] != 0 && g.bins[k] in g.free && g.free[g.bins[k]].FreeComplex?
      ensures var f := g.free[g.bins[k]];
              && (f.size <= 64 ==> f.next == 0)
              && (f.next != 0 ==> f.next in g.free && g.free[f.next].FreeComplex? && COMPLEX_DATA < g.free[f.next].size)
    {
      if k == BIN_COUNT - 1 {
        ClustersNew(st, count, count - 1);
        if count > 1 {
          ClustersNew(st, count, count - 2);
        }
      } else {
        ClustersOld(st, count, st.bins[k]);
        FreeInExtent(st);
        ClustersOld(st, count, st.free[st.bins[k]].next);
      }
    }
  }

  lemma SoundHeads(st: State)
    requires Sound(st)
    ensures |st.bins| == BIN_COUNT && forall k | 0 <= k < BIN_COUNT && st.bins[k] != 0 :: st.bins[k] in st.free
  {
  }

  lemma FreeInExtent(st: State)
    requires Sound(st)
    ensures forall o | o in st.free :: o in st.extent
  {
  }
}
