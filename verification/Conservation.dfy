/** No byte of a volume is lost or shared: what the block invariants mean for every single byte. */
module Conservation {
  import opened Layout
  import opened Blocks
  import opened Shape

  ghost predicate Owns(extent: map<nat, nat>, o: nat, b: nat) {
    o in extent && o <= b < o + extent[o]
  }

  /** Walking over the blocks from `o` on reaches the one that contains byte `b`. */
  lemma {:induction false} WalkTo(extent: map<nat, nat>, end: nat, o: nat, b: nat) returns (p: nat)
    requires Tiled(extent, end) && o in extent && o <= b < end
    ensures Owns(extent, p, b)
    decreases end - o
  {
    if b < o + extent[o] {
      p := o;
    } else {
      assert Abuts(extent, end, o);
      p := WalkTo(extent, end, o + extent[o], b);
    }
  }

  /** Every byte behind the headers belongs to exactly one block, and no byte in front of them does. */
  lemma EveryByteOwned(st: State, b: nat)
    requires Sound(st)
    ensures DATA_START <= b < st.end <==> exists o :: Owns(st.extent, o, b)
    ensures forall o, p | Owns(st.extent, o, b) && Owns(st.extent, p, b) :: o == p
  {
    hide Partitioned, Sized, Linked;
    if DATA_START <= b < st.end {
      var o := WalkTo(st.extent, st.end, DATA_START, b);
    }
    forall o, p | Owns(st.extent, o, b) && Owns(st.extent, p, b)
      ensures o == p
    {
      OneOwner(st.extent, o, p, b);
    }
  }

  lemma OneOwner(extent: map<nat, nat>, o: nat, p: nat, b: nat)
    requires Apart(extent)
    ensures Owns(extent, o, b) && Owns(extent, p, b) ==> o == p
  {
  }

  /** A block is a live entry, or free, or in other use, and never two of these. */
  lemma OneRole(st: State, o: nat)
    requires Sound(st) && o in st.extent
    ensures o in st.live || o in st.free || o in st.used
    ensures !(o in st.live && o in st.free) && !(o in st.live && o in st.used) && !(o in st.free && o in st.used)
  {
  }

  /** The blocks that following the links from `head` meets, at most `n` of them. */
  ghost function Walk(free: map<nat, Free>, head: nat, n: nat): seq<nat>
    decreases n
  {
    if n == 0 || head == 0 || head !in free then [] else [head] + Walk(free, free[head].next, n - 1)
  }

  /** Following the links of a list meets its blocks in order and then stops: the list is finite and has no cycle. */
  lemma {:induction false} WalkEnds(free: map<nat, Free>, head: nat, l: seq<nat>, n: nat)
    requires ListAt(free, head, l) && |l| <= n
    ensures Walk(free, head, n) == l
    decreases |l|
  {
    if l != [] {
      assert NodeAt(free, l, 0);
      ListTail(free, head, l);
      ListKept(free - {head}, free, free[head].next, l[1..]);
      WalkEnds(free, free[head].next, l[1..], n - 1);
    }
  }

  /** The blocks of class `k`, as its links give them. */
  ghost function ClassOf(st: State, k: nat): seq<nat>
    requires |st.bins| == BIN_COUNT && k < BIN_COUNT
  { Walk(st.free, st.bins[k], |st.free.Keys|) }

  /**
   * What the classes of a volume of fixed-size values hold: 12-byte blocks, 16-byte blocks, at most one remainder in
   * the classes from 2 to 9 together, and clusters at strictly decreasing offsets, of which only the first may be cut.
   */
  lemma ClassContents(st: State, q: Lists, k: nat)
    requires Sound(st) && Shaped(st, q) && k < BIN_COUNT
    ensures k == 0 ==> ClassOf(st, k) == q.four && forall o | o in q.four :: o in st.free && st.free[o].Free4?
    ensures k == 1 ==> ClassOf(st, k) == q.eight && forall o | o in q.eight :: o in st.free && st.free[o].Free8?
    ensures 2 <= k <= 9 ==> ClassOf(st, k) == (if q.middle != [] && st.bins[k] != 0 then q.middle else [])
    ensures |q.middle| <= 1 && (q.middle != [] ==> exists j :: 2 <= j <= 9 && st.bins[j] == q.middle[0])
    ensures k == 10 ==> ClassOf(st, k) == q.large && Decreasing(q.large)
    ensures forall i | 1 <= i < |q.large| :: q.large[i] in st.free && st.free[q.large[i]].FreeComplex?
                                             && st.free[q.large[i]].size == WHOLE
  {
    hide Sound;
    if k == 0 {
      ListLength(st.free, st.bins[0], q.four);
      WalkEnds(st.free, st.bins[0], q.four, |st.free.Keys|);
    } else if k == 1 {
      ListLength(st.free, st.bins[1], q.eight);
      WalkEnds(st.free, st.bins[1], q.eight, |st.free.Keys|);
    } else if k == 10 {
      ListLength(st.free, st.bins[10], q.large);
      WalkEnds(st.free, st.bins[10], q.large, |st.free.Keys|);
    } else {
      MiddleClassOf(st, q, k);
    }
    MiddleIsSomewhere(st, q);
    LargeAreWhole(st, q);
  }

  lemma {:induction false} ListLength(free: map<nat, Free>, head: nat, l: seq<nat>)
    requires ListAt(free, head, l)
    ensures |l| <= |free.Keys|
  {
    ListInFree(free, head, l);
    DistinctWithin(l, free.Keys);
  }

  lemma {:induction false} DistinctWithin(l: seq<nat>, s: set<nat>)
    requires forall o | o in l :: o in s
    requires forall i, j | 0 <= i < j < |l| :: l[i] != l[j]
    ensures |l| <= |s|
  {
    if l != [] {
      var last := |l| - 1;
      assert l[last] in l;
      DistinctWithin(l[..last], s - {l[last]});
    }
  }

  lemma MiddleClassOf(st: State, q: Lists, k: nat)
    requires Shaped(st, q) && 2 <= k <= 9
    ensures ClassOf(st, k) == if q.middle != [] && st.bins[k] != 0 then q.middle else []
  {
    if q.middle != [] && st.bins[k] != 0 {
      var o := q.middle[0];
      assert st.free != map[];
      assert Walk(st.free, st.free[o].next, |st.free.Keys| - 1) == [];
    }
  }

  lemma MiddleIsSomewhere(st: State, q: Lists)
    requires Shaped(st, q)
    ensures |q.middle| <= 1 && (q.middle != [] ==> exists j :: 2 <= j <= 9 && st.bins[j] == q.middle[0])
  {
    if q.middle != [] {
      var j := MiddleClass(st.free[q.middle[0]]);
      assert st.bins[j] == q.middle[0];
    }
  }

  lemma LargeAreWhole(st: State, q: Lists)
    requires Shaped(st, q)
    ensures Decreasing(q.large)
    ensures forall i | 1 <= i < |q.large| :: q.large[i] in st.free && st.free[q.large[i]].FreeComplex?
                                             && st.free[q.large[i]].size == WHOLE
  {
    forall i | 1 <= i < |q.large|
      ensures q.large[i] in st.free && st.free[q.large[i]].FreeComplex? && st.free[q.large[i]].size == WHOLE
    {
      assert q.large[1..][i - 1] == q.large[i] && q.large[i] in q.large[1..];
    }
  }

  /** In how many of the lists a block is. */
  ghost function ListsWith(q: Lists, o: nat): nat {
    (if o in q.four then 1 else 0) + (if o in q.eight then 1 else 0) + (if o in q.middle then 1 else 0)
    + if o in q.large then 1 else 0
  }

  /** A free block is in exactly one list, unless it was lost in a growth that failed; other blocks are in none. */
  lemma FreeMeansListed(st: State, q: Lists, o: nat)
    requires Shaped(st, q)
    ensures ListsWith(q, o) == if o in st.free && o !in q.lost then 1 else 0
  {
    ListInFree(st.free, st.bins[0], q.four);
    ListInFree(st.free, st.bins[1], q.eight);
    ListInFree(st.free, st.bins[10], q.large);
    NotBoth(st, q, o);
  }

  /** The kinds of the blocks keep the lists apart. */
  lemma NotBoth(st: State, q: Lists, o: nat)
    requires Shaped(st, q)
    ensures !(o in q.four && o in q.eight) && !(o in q.four && o in q.large) && !(o in q.eight && o in q.large)
  {
    if o in q.large {
      var i :| 0 <= i < |q.large| && q.large[i] == o;
      if i > 0 {
        assert q.large[1..][i - 1] == o && o in q.large[1..];
      }
      assert o in st.free && st.free[o].FreeComplex?;
    }
  }
}
