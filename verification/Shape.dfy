/**
 * The shape of the free lists while a volume has only ever held fixed-size values: what each list contains, and that
 * together they contain every free block. Complex values break this shape; Blocks.Sound is what survives them.
 */
module Shape {
  import opened Layout
  import opened Freelist
  import opened Blocks
  import opened Image

  /**
   * The lists from their heads. `middle` is the content of classes 2 to 9 together; `lost` are clusters of a growth
   * that failed half way, which no list refers to.
   */
  datatype Lists = Lists(four: seq<nat>, eight: seq<nat>, middle: seq<nat>, large: seq<nat>, lost: set<nat>)

  const NO_LISTS: Lists := Lists([], [], [], [], {})
  const WHOLE: nat := CLUSTER_SIZE - COMPLEX_DATA

  /** The `i`-th block of a list links to the next one, the last block to nothing. */
  ghost predicate NodeAt(free: map<nat, Free>, l: seq<nat>, i: nat)
    requires i < |l|
  {
    l[i] in free && free[l[i]].next == if i + 1 < |l| then l[i + 1] else 0
  }

  /** Following the links from `head` visits exactly the blocks of `l`, each once, and ends. */
  ghost predicate ListAt(free: map<nat, Free>, head: nat, l: seq<nat>) {
    && head == (if l == [] then 0 else l[0]) && 0 !in l
    && (forall i: nat | i < |l| :: NodeAt(free, l, i))
    && (forall i, j | 0 <= i < j < |l| :: l[i] != l[j])
  }

  ghost predicate AllFree4(free: map<nat, Free>, l: seq<nat>) {
    forall o | o in l :: o in free && free[o].Free4?
  }

  ghost predicate AllFree8(free: map<nat, Free>, l: seq<nat>) {
    forall o | o in l :: o in free && free[o].Free8?
  }

  ghost predicate AllWhole(free: map<nat, Free>, l: seq<nat>) {
    forall o | o in l :: o in free && free[o].FreeComplex? && free[o].size == WHOLE
  }

  ghost predicate Decreasing(l: seq<nat>) {
    forall i, j | 0 <= i < j < |l| :: l[j] < l[i]
  }

  /** The class, from 2 to 9, that a block left over from a split is in. */
  function MiddleClass(f: Free): nat {
    if f.FreeComplex? then BinId(f.size) else 2
  }

  /** At most one block in the classes from 2 to 9, and nothing behind it. */
  ghost predicate MiddleAt(free: map<nat, Free>, bins: seq<nat>, middle: seq<nat>)
    requires |bins| == BIN_COUNT
  {
    && |middle| <= 1
    && (middle == [] ==> forall i | 2 <= i <= 9 :: bins[i] == 0)
    && (middle != [] ==>
          var o := middle[0];
          && o != 0 && o in free && free[o].next == 0 && !free[o].Free4? && 2 <= MiddleClass(free[o]) <= 9
          && forall i | 2 <= i <= 9 :: bins[i] == if i == MiddleClass(free[o]) then o else 0)
  }

  /** The cluster class: at most one split remainder, then whole clusters, at strictly decreasing offsets. */
  ghost predicate LargeAt(free: map<nat, Free>, large: seq<nat>) {
    && Decreasing(large)
    && (large != [] ==> large[0] in free && free[large[0]].FreeComplex? && 2048 < free[large[0]].size <= WHOLE)
    && AllWhole(free, if large == [] then [] else large[1..])
  }

  /** Every free block is in exactly one of the lists, or lost. */
  ghost predicate Covered(free: map<nat, Free>, q: Lists) {
    && (forall o | o in free :: o in q.four || o in q.eight || o in q.middle || o in q.large || o in q.lost)
    && (forall o | o in q.lost ::
          o in free && o !in q.four && o !in q.eight && o !in q.middle && o !in q.large)
    && (forall o | o in q.middle :: o !in q.four && o !in q.eight && o !in q.large)
  }

  /** No free complex block owns more than its size and 32 bytes. */
  ghost predicate Exact(free: map<nat, Free>, extent: map<nat, nat>) {
    forall o | o in free && free[o].FreeComplex? ::
      o in extent && extent[o] == free[o].size + COMPLEX_DATA && COMPLEX_SIZE < free[o].size
  }

  lemma ExactBlock(st: State, q: Lists, o: nat)
    requires Shaped(st, q) && o in st.free && st.free[o].FreeComplex?
    ensures o in st.extent && st.extent[o] == st.free[o].size + COMPLEX_DATA && COMPLEX_SIZE < st.free[o].size
  {
  }

  /** Clusters own just what their headers say. */
  lemma ClustersExact(st: State, count: nat)
    requires Sound(st) && Exact(st.free, st.extent)
    ensures Exact(Clusters(st, count).free, Clusters(st, count).extent)
  {
    var r := Clusters(st, count);
    forall o | o in r.free && r.free[o].FreeComplex?
      ensures o in r.extent && r.extent[o] == r.free[o].size + COMPLEX_DATA && COMPLEX_SIZE < r.free[o].size
    {
      ClustersOld(st, count, o);
      if o !in st.free {
        var i := ClustersOnly(st, count, o);
        ClustersNew(st, count, i);
      }
    }
  }

  ghost predicate Shaped(st: State, q: Lists) {
    && |st.bins| == BIN_COUNT && Exact(st.free, st.extent)
    && ListAt(st.free, st.bins[0], q.four) && AllFree4(st.free, q.four)
    && ListAt(st.free, st.bins[1], q.eight) && AllFree8(st.free, q.eight)
    && MiddleAt(st.free, st.bins, q.middle)
    && ListAt(st.free, st.bins[10], q.large) && LargeAt(st.free, q.large)
    && (q.middle != [] ==> AllWhole(st.free, q.large))
    && Covered(st.free, q)
  }

  // ------------------------------------------------------------------ about one list

  lemma ListTail(free: map<nat, Free>, head: nat, l: seq<nat>)
    requires ListAt(free, head, l) && l != [] && head in free
    ensures ListAt(free - {head}, free[head].next, l[1..])
    ensures head !in l[1..]
  {
    assert NodeAt(free, l, 0);
    var t := l[1..];
    forall i: nat | i < |t|
      ensures NodeAt(free - {head}, t, i)
    {
      assert NodeAt(free, l, i + 1);
    }
  }

  lemma ListPush(free: map<nat, Free>, head: nat, l: seq<nat>, p: nat, f: Free)
    requires ListAt(free, head, l) && p !in l && p != 0 && f.next == head
    ensures ListAt(free[p := f], p, [p] + l)
  {
    var free', t := free[p := f], [p] + l;
    forall i: nat | i < |t|
      ensures NodeAt(free', t, i)
    {
      if i > 0 {
        assert NodeAt(free, l, i - 1) && l[i - 1] in l;
      }
    }
    forall i, j | 0 <= i < j < |t|
      ensures t[i] != t[j]
    {
      assert t[j] == l[j - 1] && l[j - 1] in l;
    }
  }

  /** A list does not notice changes to blocks that are not in it. */
  lemma ListFrame(free: map<nat, Free>, free': map<nat, Free>, head: nat, l: seq<nat>)
    requires ListAt(free, head, l)
    requires forall o | o in l :: o in free && o in free' && free'[o] == free[o]
    ensures ListAt(free', head, l)
  {
    forall i: nat | i < |l|
      ensures NodeAt(free', l, i)
    {
      assert NodeAt(free, l, i) && l[i] in l;
    }
  }

  // -------------------------------------------------- taking a block from its list

  /** The lists after the head of class `k` has been taken. */
  function Taken(q: Lists, k: nat): Lists {
    if k == 0 then (if q.four == [] then q else q.(four := q.four[1..]))
    else if k == 1 then (if q.eight == [] then q else q.(eight := q.eight[1..]))
    else if k == 10 then (if q.large == [] then q else q.(large := q.large[1..]))
    else q.(middle := [])
  }

  lemma FourLess(free: map<nat, Free>, o: nat, head: nat, l: seq<nat>)
    requires ListAt(free, head, l) && AllFree4(free, l) && o !in l
    ensures ListAt(free - {o}, head, l) && AllFree4(free - {o}, l)
  {
    ListFrame(free, free - {o}, head, l);
  }

  lemma EightLess(free: map<nat, Free>, o: nat, head: nat, l: seq<nat>)
    requires ListAt(free, head, l) && AllFree8(free, l) && o !in l
    ensures ListAt(free - {o}, head, l) && AllFree8(free - {o}, l)
  {
    ListFrame(free, free - {o}, head, l);
  }

  lemma MiddleLess(free: map<nat, Free>, o: nat, bins: seq<nat>, middle: seq<nat>)
    requires |bins| == BIN_COUNT && MiddleAt(free, bins, middle) && o !in middle
    ensures MiddleAt(free - {o}, bins, middle)
  {
  }

  lemma LargeLess(free: map<nat, Free>, o: nat, head: nat, l: seq<nat>)
    requires ListAt(free, head, l) && LargeAt(free, l) && o !in l
    ensures ListAt(free - {o}, head, l) && LargeAt(free - {o}, l)
    ensures AllWhole(free, l) ==> AllWhole(free - {o}, l)
  {
    ListInFree(free, head, l);
    ListFrame(free, free - {o}, head, l);
    assert l != [] ==> l[0] in l;
  }

  /** The list a block is taken from, without the block. */
  lemma LargeTail(free: map<nat, Free>, head: nat, l: seq<nat>)
    requires ListAt(free, head, l) && LargeAt(free, l) && l != [] && head in free
    ensures ListAt(free - {head}, free[head].next, l[1..]) && head !in l[1..]
    ensures AllWhole(free - {head}, l[1..]) && Decreasing(l[1..])
    ensures free[head].next != 0 ==>
              free[head].next in free && free[free[head].next] == FreeComplex(free[free[head].next].next, WHOLE)
  {
    ListTail(free, head, l);
    assert NodeAt(free, l, 0);
    assert |l| > 1 ==> l[1] in l[1..];
  }

  lemma CoveredLess(free: map<nat, Free>, q: Lists, k: nat, o: nat)
    requires Covered(free, q) && o in free && k < BIN_COUNT
    requires if k == 0 then q.four != [] && q.four[0] == o
             else if k == 1 then q.eight != [] && q.eight[0] == o
             else if k == 10 then q.large != [] && q.large[0] == o
             else q.middle == [o]
    requires var r := Taken(q, k); o !in r.four && o !in r.eight && o !in r.middle && o !in r.large
    ensures Covered(free - {o}, Taken(q, k))
  {
    var r := Taken(q, k);
    forall p | p in free - {o}
      ensures p in r.four || p in r.eight || p in r.middle || p in r.large || p in r.lost
    {
      assert p in q.four ==> p == q.four[0] || p in q.four[1..];
      assert p in q.eight ==> p == q.eight[0] || p in q.eight[1..];
      assert p in q.large ==> p == q.large[0] || p in q.large[1..];
    }
  }

  /** No block is in two lists. */
  lemma ListsApart(st: State, q: Lists)
    requires Shaped(st, q)
    ensures forall o | o in q.four :: o !in q.eight && o !in q.middle && o !in q.large
    ensures forall o | o in q.eight :: o !in q.middle && o !in q.large
    ensures forall o | o in q.middle :: o !in q.large
  {
    LargeComplex(st.free, st.bins[10], q.large);
  }

  lemma LargeComplex(free: map<nat, Free>, head: nat, l: seq<nat>)
    requires ListAt(free, head, l) && LargeAt(free, l)
    ensures forall o | o in l :: o in free && free[o].FreeComplex?
  {
    forall o | o in l
      ensures o in free && free[o].FreeComplex?
    {
      assert o == l[0] || o in l[1..];
    }
  }

  lemma DetachFour(st: State, q: Lists)
    requires Shaped(st, q) && st.bins[0] in st.free && st.bins[0] != 0
    ensures Shaped(Detach(st, 0, 0), Taken(q, 0))
  {
    hide AllFree8, MiddleAt, LargeAt, Covered, NodeAt;
    var free, o := st.free, st.bins[0];
    ListsApart(st, q);
    assert o in q.four;
    ListTail(free, o, q.four);
    EightLess(free, o, st.bins[1], q.eight);
    MiddleLess(free, o, st.bins, q.middle);
    LargeLess(free, o, st.bins[10], q.large);
    CoveredLess(free, q, 0, o);
    hide ListAt, AllWhole;
    MiddleOfBins(free - {o}, st.bins, Detach(st, 0, 0).bins, q.middle);
  }

  lemma DetachEight(st: State, q: Lists)
    requires Shaped(st, q) && st.bins[1] in st.free && st.bins[1] != 0
    ensures Shaped(Detach(st, 1, 1), Taken(q, 1))
  {
    hide AllFree4, MiddleAt, LargeAt, Covered, NodeAt;
    var free, o := st.free, st.bins[1];
    ListsApart(st, q);
    assert o in q.eight;
    ListTail(free, o, q.eight);
    FourLess(free, o, st.bins[0], q.four);
    MiddleLess(free, o, st.bins, q.middle);
    LargeLess(free, o, st.bins[10], q.large);
    CoveredLess(free, q, 1, o);
    hide ListAt, AllWhole;
    MiddleOfBins(free - {o}, st.bins, Detach(st, 1, 1).bins, q.middle);
  }

  lemma DetachMiddle(st: State, q: Lists, k: nat, j: nat)
    requires Shaped(st, q) && 2 <= k <= 9 && j < BIN_COUNT && st.bins[k] in st.free && st.bins[k] != 0
    ensures Shaped(Detach(st, k, j), Taken(q, k))
    ensures AllWhole(Detach(st, k, j).free, Taken(q, k).large)
  {
    hide AllFree4, AllFree8, LargeAt, Covered, NodeAt;
    var free, o := st.free, st.bins[k];
    assert q.middle == [o];
    ListsApart(st, q);
    FourLess(free, o, st.bins[0], q.four);
    EightLess(free, o, st.bins[1], q.eight);
    LargeLess(free, o, st.bins[10], q.large);
    CoveredLess(free, q, k, o);
  }

  lemma DetachLarge(st: State, q: Lists, j: nat)
    requires Shaped(st, q) && st.bins[10] in st.free && st.bins[10] != 0 && LinkBin(st, st.free[st.bins[10]], j)
    ensures j < BIN_COUNT && Shaped(Detach(st, 10, j), Taken(q, 10))
    ensures AllWhole(Detach(st, 10, j).free, Taken(q, 10).large)
  {
    hide AllFree4, AllFree8, MiddleAt, LargeAt, Covered, NodeAt;
    var free, o := st.free, st.bins[10];
    ListsApart(st, q);
    assert o in q.large;
    LargeTail(free, o, q.large);
    LargeComplex(free, o, q.large);
    FourLess(free, o, st.bins[0], q.four);
    EightLess(free, o, st.bins[1], q.eight);
    MiddleLess(free, o, st.bins, q.middle);
    CoveredLess(free, q, 10, o);
    WholeIsLarge(free - {o}, q.large[1..]);
    hide ListAt, AllWhole, Decreasing;
    MiddleOfBins(free - {o}, st.bins, Detach(st, 10, j).bins, q.middle);
  }

  /** Taking the head of any class takes the first block of its list, and nothing else changes. */
  lemma DetachShaped(st: State, q: Lists, k: nat, j: nat)
    requires Shaped(st, q) && k < BIN_COUNT && st.bins[k] != 0 && st.bins[k] in st.free
    requires LinkBin(st, st.free[st.bins[k]], j)
    ensures j < BIN_COUNT && Shaped(Detach(st, k, j), Taken(q, k))
    ensures k >= 2 ==> AllWhole(Detach(st, k, j).free, Taken(q, k).large)
  {
    HeadKinds(st, q);
    hide Shaped, ListAt, Covered, MiddleAt, LargeAt;
    if k == 0 {
      DetachFour(st, q);
    } else if k == 1 {
      DetachEight(st, q);
    } else if k == 10 {
      DetachLarge(st, q, j);
    } else {
      DetachMiddle(st, q, k, j);
    }
  }

  /** What the heads of the classes are. */
  lemma HeadKinds(st: State, q: Lists)
    requires Shaped(st, q)
    ensures st.bins[0] != 0 ==> q.four != [] && st.bins[0] in st.free && st.free[st.bins[0]].Free4?
    ensures st.bins[1] != 0 ==> q.eight != [] && st.bins[1] in st.free && st.free[st.bins[1]].Free8?
    ensures st.bins[10] != 0 ==> q.large != [] && st.bins[10] in st.free && st.free[st.bins[10]].FreeComplex?
    ensures forall k | 2 <= k <= 9 && st.bins[k] != 0 ::
              q.middle == [st.bins[k]] && st.bins[k] in st.free && MiddleClass(st.free[st.bins[k]]) == k
  {
    if st.bins[0] != 0 {
      assert q.four[0] in q.four;
    }
    if st.bins[1] != 0 {
      assert q.eight[0] in q.eight;
    }
  }

  // ---------------------------------------------------------------- returning blocks

  /** The lists after a block of `size` bytes of capacity has been split off at `p`. */
  function Split(q: Lists, p: nat, size: nat): Lists {
    if size > 2048 then q.(large := [p] + q.large) else q.(middle := [p])
  }

  /** Cutting a block that owns just what its header says. */
  lemma CutExact(st: State, o: nat, entry: nat, size: nat)
    requires |st.bins| == BIN_COUNT && Exact(st.free, st.extent) && o in st.extent && o !in st.free
    requires st.extent[o] == entry + size + COMPLEX_DATA && COMPLEX_SIZE < entry + size
    ensures Exact(Cut(st, o, entry, size).free, Cut(st, o, entry, size).extent)
  {
  }

  lemma CutToMiddle(st: State, q: Lists, o: nat, entry: nat, size: nat)
    requires Shaped(st, q) && q.middle == [] && AllWhole(st.free, q.large) && o + entry !in st.free && o + entry != 0
    requires o in st.extent && o !in st.free && st.extent[o] == entry + size + COMPLEX_DATA && COMPLEX_SIZE < entry + size
    requires SIMPLE8_SIZE < size <= 2048
    ensures Shaped(Cut(st, o, entry, size), Split(q, o + entry, size))
  {
    var p, f := o + entry, Remainder(st.bins, size);
    var r := Cut(st, o, entry, size);
    assert 2 <= BinId(size) <= 9 && MiddleAt(r.free, r.bins, [p]);
    CutExact(st, o, entry, size);
    hide ListAt, AllFree4, AllFree8, MiddleAt, LargeAt, Covered, NodeAt, AllWhole;
    InLists(st, q);
    SmallListsKept(st, q, r.free);
    LargeKept(st, q, r.free);
    WholeKept(st.free, r.free, q.large);
    CoveredSplit(st.free, q, p, f, size);
  }

  lemma WholeKept(free: map<nat, Free>, free': map<nat, Free>, l: seq<nat>)
    requires AllWhole(free, l) && forall o | o in free :: o in free' && free'[o] == free[o]
    ensures AllWhole(free', l)
  {
  }

  lemma CutToLarge(st: State, q: Lists, o: nat, entry: nat, size: nat)
    requires Shaped(st, q) && q.middle == [] && AllWhole(st.free, q.large) && o + entry !in st.free && o + entry != 0
    requires o in st.extent && o !in st.free && st.extent[o] == entry + size + COMPLEX_DATA && COMPLEX_SIZE < entry + size
    requires 2048 < size <= WHOLE && forall p | p in q.large :: p < o + entry
    ensures Shaped(Cut(st, o, entry, size), Split(q, o + entry, size))
  {
    hide AllFree4, AllFree8, MiddleAt, Covered, NodeAt, AllWhole, Decreasing;
    var p, f := o + entry, Remainder(st.bins, size);
    var r := Cut(st, o, entry, size);
    InLists(st, q);
    SmallListsKept(st, q, r.free);
    CoveredSplit(st.free, q, p, f, size);
    CutExact(st, o, entry, size);
    ListPush(st.free, st.bins[10], q.large, p, f);
    PushLarge(st.free, q.large, p, f);
    hide ListAt;
    MiddleOfBins(r.free, st.bins, r.bins, q.middle);
  }

  lemma PushLarge(free: map<nat, Free>, l: seq<nat>, p: nat, f: Free)
    requires AllWhole(free, l) && Decreasing(l) && f.FreeComplex? && 2048 < f.size <= WHOLE
    requires p !in free && forall o | o in l :: o < p
    ensures LargeAt(free[p := f], [p] + l)
  {
    var t := [p] + l;
    assert t[1..] == l;
    forall i, j | 0 <= i < j < |t|
      ensures t[j] < t[i]
    {
      assert t[j] == l[j - 1] && l[j - 1] in l;
      assert i > 0 ==> t[i] == l[i - 1];
    }
  }

  lemma CoveredSplit(free: map<nat, Free>, q: Lists, p: nat, f: Free, size: nat)
    requires Covered(free, q) && p !in free && q.middle == []
    requires forall o | o in q.four || o in q.eight || o in q.middle || o in q.large :: o in free
    ensures Covered(free[p := f], Split(q, p, size))
  {
  }

  lemma ListInFree(free: map<nat, Free>, head: nat, l: seq<nat>)
    requires ListAt(free, head, l)
    ensures forall o | o in l :: o in free
  {
    forall o | o in l
      ensures o in free
    {
      var i :| 0 <= i < |l| && l[i] == o;
      assert NodeAt(free, l, i);
    }
  }

  // ---------------------------------------------------------------------- new clusters

  /** The new clusters of a growth, from the head of their list: last one first. */
  function NewClusters(start: nat, count: nat): (l: seq<nat>)
    ensures |l| == count
    ensures forall i | 0 <= i < count :: l[i] == start + CLUSTER_SIZE * (count - 1 - i)
  {
    if count == 0 then [] else [start + CLUSTER_SIZE * (count - 1)] + NewClusters(start, count - 1)
  }

  lemma NewClustersList(st: State, count: nat)
    requires Sound(st)
    ensures var l := NewClusters(st.end, count);
            ListAt(Clusters(st, count).free, if count == 0 then 0 else st.end + CLUSTER_SIZE * (count - 1), l)
            && Decreasing(l) && AllWhole(Clusters(st, count).free, l)
  {
    var l := NewClusters(st.end, count);
    var r := Clusters(st, count);
    forall i: nat | i < |l|
      ensures NodeAt(r.free, l, i) && l[i] in r.free && r.free[l[i]].FreeComplex? && r.free[l[i]].size == WHOLE
    {
      ClustersNew(st, count, count - 1 - i);
    }
  }

  /** Lists do not notice blocks that are added. */
  lemma ListKept(free: map<nat, Free>, free': map<nat, Free>, head: nat, l: seq<nat>)
    requires ListAt(free, head, l) && forall o | o in free :: o in free' && free'[o] == free[o]
    ensures ListAt(free', head, l)
  {
    ListInFree(free, head, l);
    ListFrame(free, free', head, l);
  }

  lemma SmallListsKept(st: State, q: Lists, free': map<nat, Free>)
    requires Shaped(st, q) && forall o | o in st.free :: o in free' && free'[o] == st.free[o]
    ensures ListAt(free', st.bins[0], q.four) && AllFree4(free', q.four)
    ensures ListAt(free', st.bins[1], q.eight) && AllFree8(free', q.eight)
    ensures MiddleAt(free', st.bins, q.middle)
  {
    ListKept(st.free, free', st.bins[0], q.four);
    ListKept(st.free, free', st.bins[1], q.eight);
  }

  lemma LargeKept(st: State, q: Lists, free': map<nat, Free>)
    requires Shaped(st, q) && forall o | o in st.free :: o in free' && free'[o] == st.free[o]
    ensures ListAt(free', st.bins[10], q.large) && LargeAt(free', q.large)
    ensures q.middle != [] ==> AllWhole(free', q.large)
  {
    ListKept(st.free, free', st.bins[10], q.large);
  }

  lemma InLists(st: State, q: Lists)
    requires Shaped(st, q)
    ensures forall o | o in q.four || o in q.eight || o in q.middle || o in q.large || o in q.lost :: o in st.free
  {
    ListInFree(st.free, st.bins[0], q.four);
    ListInFree(st.free, st.bins[1], q.eight);
    ListInFree(st.free, st.bins[10], q.large);
  }

  /** The lists after a growth that failed before its clusters were referred to. */
  function Lose(q: Lists, clusters: seq<nat>): Lists {
    q.(lost := q.lost + (set o | o in clusters))
  }

  lemma CoveredMore(free: map<nat, Free>, free': map<nat, Free>, q: Lists, l: seq<nat>)
    requires Covered(free, q)
    requires forall o | o in q.four || o in q.eight || o in q.middle || o in q.large :: o in free
    requires forall o | o in l :: o in free' && o !in free
    requires forall o | o in free' :: o in free || o in l
    requires forall o | o in free :: o in free'
    ensures Covered(free', Lose(q, l))
    ensures q.large == [] ==> Covered(free', q.(large := l))
  {
  }

  /** Appending clusters without referring to them loses exactly the new clusters. */
  lemma ClustersShaped(st: State, q: Lists, count: nat)
    requires Sound(st) && Shaped(st, q)
    ensures Shaped(Clusters(st, count), Lose(q, NewClusters(st.end, count)))
  {
    hide Sound, ListAt, AllFree4, AllFree8, MiddleAt, LargeAt, AllWhole, Decreasing, Covered, Clusters, NewClusters,
         Exact;
    ClustersExact(st, count);
    var r, l := Clusters(st, count), NewClusters(st.end, count);
    ClustersEnd(st, count);
    NewClustersFree(st, count);
    SmallListsKept(st, q, r.free);
    LargeKept(st, q, r.free);
    InLists(st, q);
    CoveredMore(st.free, r.free, q, l);
  }

  lemma NewClustersFree(st: State, count: nat)
    requires Sound(st)
    ensures forall o | o in NewClusters(st.end, count) :: o in Clusters(st, count).free && o !in st.free
    ensures forall o | o in Clusters(st, count).free :: o in st.free || o in NewClusters(st.end, count)
    ensures forall o | o in st.free :: o in Clusters(st, count).free && Clusters(st, count).free[o] == st.free[o]
  {
    forall o | o in NewClusters(st.end, count)
      ensures o in Clusters(st, count).free && o !in st.free
    {
      var i :| 0 <= i < count && NewClusters(st.end, count)[i] == o;
      ClustersNew(st, count, count - 1 - i);
    }
    forall o
      ensures o in Clusters(st, count).free && o !in st.free ==> o in NewClusters(st.end, count)
      ensures o in st.free ==> o in Clusters(st, count).free && Clusters(st, count).free[o] == st.free[o]
    {
      ClustersOld(st, count, o);
      if o in Clusters(st, count).free && o !in st.free {
        var i := ClustersOnly(st, count, o);
        assert NewClusters(st.end, count)[count - 1 - i] == o;
      }
    }
  }

  /** A growth of a volume without clusters gives a cluster class of exactly the new clusters. */
  lemma GrownShaped(st: State, q: Lists, count: nat)
    requires Sound(st) && Shaped(st, q) && st.bins[10] == 0 && count > 0
    ensures Shaped(Grown(st, count), q.(large := NewClusters(st.end, count)))
  {
    hide Sound, ListAt, AllFree4, AllFree8, MiddleAt, LargeAt, AllWhole, Decreasing, Covered, Clusters, NewClusters,
         Exact;
    ClustersExact(st, count);
    NoLarge(st, q);
    var r, l := Grown(st, count), NewClusters(st.end, count);
    ClustersEnd(st, count);
    NewClustersFree(st, count);
    NewClustersList(st, count);
    SmallListsKept(st, q, r.free);
    InLists(st, q);
    WholeIsLarge(r.free, l);
    CoveredMore(st.free, r.free, q, l);
    MiddleOfBins(r.free, st.bins, r.bins, q.middle);
  }

  lemma MiddleOfBins(free: map<nat, Free>, bins: seq<nat>, bins': seq<nat>, middle: seq<nat>)
    requires |bins| == |bins'| == BIN_COUNT && MiddleAt(free, bins, middle)
    requires forall i | 2 <= i <= 9 :: bins'[i] == bins[i]
    ensures MiddleAt(free, bins', middle)
  {
  }

  lemma NoLarge(st: State, q: Lists)
    requires Shaped(st, q)
    ensures st.bins[10] == 0 <==> q.large == []
  {
    assert q.large == [] || q.large[0] in q.large;
  }

  lemma WholeIsLarge(free: map<nat, Free>, l: seq<nat>)
    requires AllWhole(free, l) && Decreasing(l)
    ensures LargeAt(free, l)
  {
  }

  // ------------------------------------------------------------------ deleted entries

  /** The lists after block `o` has been put in front of the list of its size. */
  function Released(q: Lists, o: nat, size: nat): Lists {
    if size == SIMPLE4_SIZE then q.(four := [o] + q.four) else q.(eight := [o] + q.eight)
  }

  /** A deleted entry becomes the head of the list of its size. */
  lemma ReleaseShaped(st: State, q: Lists, o: nat)
    requires Shaped(st, q) && o in st.live && o !in st.free && o != 0 && st.live[o].Valid()
    ensures Shaped(Release(st, o), Released(q, o, st.live[o].Size()))
  {
    hide ListAt, AllFree4, AllFree8, MiddleAt, LargeAt, AllWhole, Decreasing, Covered;
    var r := Release(st, o);
    var f := r.free[o];
    InLists(st, q);
    SmallListsKept(st, q, r.free);
    LargeKept(st, q, r.free);
    MiddleOfBins(r.free, st.bins, r.bins, q.middle);
    CoveredPush(st.free, q, o, f, st.live[o].Size());
    if st.live[o].Size() == SIMPLE4_SIZE {
      ListPush(st.free, st.bins[0], q.four, o, f);
      PushFree4(st.free, q.four, o, f);
    } else {
      ListPush(st.free, st.bins[1], q.eight, o, f);
      PushFree8(st.free, q.eight, o, f);
    }
  }

  lemma CoveredPush(free: map<nat, Free>, q: Lists, o: nat, f: Free, size: nat)
    requires Covered(free, q) && o !in free
    requires forall p | p in q.four || p in q.eight || p in q.middle || p in q.large :: p in free
    ensures Covered(free[o := f], Released(q, o, size))
  {
  }

  lemma PushFree4(free: map<nat, Free>, l: seq<nat>, o: nat, f: Free)
    requires AllFree4(free, l) && f.Free4?
    ensures AllFree4(free[o := f], [o] + l)
  {
  }

  lemma PushFree8(free: map<nat, Free>, l: seq<nat>, o: nat, f: Free)
    requires AllFree8(free, l) && f.Free8?
    ensures AllFree8(free[o := f], [o] + l)
  {
  }
}
