/**
 * The block structure of a volume as a value: which blocks tile the device, which of them are live, free or in
 * other use, and how the free ones are linked. The entry manager's methods are proved against these transitions.
 */
module Blocks {
  import opened Layout
  import opened Freelist

  /** A free block, with the link stored in its header. `size` is the `overall_size_` of a complex block. */
  datatype Free = Free4(next: nat) | Free8(next: nat) | FreeComplex(next: nat, size: nat)

  /**
   * `extent[o]` is the number of bytes block `o` owns; `live` holds the headers of the simple entries; `used` are
   * blocks that are neither free nor simple entries: the chunks of complex values and blocks just handed out.
   */
  datatype State = State(end: nat, extent: map<nat, nat>, live: map<nat, SimpleHeader>, free: map<nat, Free>,
                         used: set<nat>, bins: seq<nat>)

  // ------------------------------------------------------------------- invariants

  ghost predicate Partitioned(st: State) {
    && st.extent.Keys == st.live.Keys + st.free.Keys + st.used
    && st.live.Keys !! st.free.Keys
    && st.used !! st.live.Keys
    && st.used !! st.free.Keys
  }

  /** A block ends where the device ends or where another block starts. */
  ghost predicate Abuts(extent: map<nat, nat>, end: nat, o: nat)
    requires o in extent
  {
    o + extent[o] == end || o + extent[o] in extent
  }

  ghost predicate Bounded(extent: map<nat, nat>, end: nat) {
    forall o | o in extent :: DATA_START <= o && 0 < extent[o] <= CLUSTER_SIZE && o + extent[o] <= end
  }

  ghost predicate Chained(extent: map<nat, nat>, end: nat) {
    forall o {:trigger Abuts(extent, end, o)} | o in extent :: Abuts(extent, end, o)
  }

  ghost predicate Apart(extent: map<nat, nat>) {
    forall o, q | o in extent && q in extent && o < q :: o + extent[o] <= q
  }

  /** The blocks follow one another without gap or overlap from DATA_START to the end of the device. */
  ghost predicate Tiled(extent: map<nat, nat>, end: nat) {
    && DATA_START <= end
    && (end == DATA_START || DATA_START in extent)
    && Bounded(extent, end)
    && Chained(extent, end)
    && Apart(extent)
  }

  /**
   * Every block is large enough for the header it carries; a free complex block owns at least its size and 32 bytes. It
   * owns more than that only if it was a chunk of a deleted value.
   */
  ghost predicate Sized(st: State)
    requires Partitioned(st)
  {
    && (forall o | o in st.live :: st.live[o].Valid() && st.live[o].Size() <= st.extent[o])
    && (forall o | o in st.free :: FreeSized(st.free[o], st.extent[o]))
  }

  ghost predicate FreeSized(f: Free, extent: nat) {
    match f
    case Free4(_) => SIMPLE4_SIZE <= extent
    case Free8(_) => SIMPLE8_SIZE <= extent
    case FreeComplex(_, size) => size + COMPLEX_DATA <= extent && COMPLEX_SIZE <= extent
  }

  /** The least extent of a block that class `k` hands out, and of one reached over a link. */
  function LeastInBin(k: nat): nat {
    if k == 0 then SIMPLE4_SIZE else if k == 1 then SIMPLE8_SIZE else COMPLEX_SIZE
  }

  function LeastLinked(f: Free): nat {
    match f
    case Free4(_) => SIMPLE4_SIZE
    case Free8(_) => SIMPLE8_SIZE
    case FreeComplex(_, _) => COMPLEX_SIZE
  }

  ghost predicate LinkFree(free: map<nat, Free>, extent: map<nat, nat>, o: nat)
    requires o in free && free.Keys <= extent.Keys
  {
    free[o].next != 0 ==> free[o].next in free && LeastLinked(free[o]) <= extent[free[o].next]
  }

  /** Every reference leads to a free block of sufficient extent. */
  ghost predicate RefsFree(free: map<nat, Free>, extent: map<nat, nat>, bins: seq<nat>)
    requires free.Keys <= extent.Keys && |bins| == BIN_COUNT
  {
    && (forall i | 0 <= i < BIN_COUNT && bins[i] != 0 :: bins[i] in free && LeastInBin(i) <= extent[bins[i]])
    && (forall o {:trigger LinkFree(free, extent, o)} | o in free :: LinkFree(free, extent, o))
  }

  /** No free block is referred to twice. */
  ghost predicate RefsApart(free: map<nat, Free>, bins: seq<nat>)
    requires |bins| == BIN_COUNT
  {
    && (forall i, j | 0 <= i < j < BIN_COUNT && bins[i] != 0 :: bins[i] != bins[j])
    && (forall o, q | o in free && q in free && o != q && free[o].next != 0 :: free[o].next != free[q].next)
    && (forall o, i | o in free && 0 <= i < BIN_COUNT && bins[i] != 0 :: free[o].next != bins[i])
  }

  ghost predicate Linked(st: State)
    requires Partitioned(st)
  {
    |st.bins| == BIN_COUNT && RefsFree(st.free, st.extent, st.bins) && RefsApart(st.free, st.bins)
  }

  ghost predicate Sound(st: State) {
    Partitioned(st) && Tiled(st.extent, st.end) && Sized(st) && Linked(st)
  }

  // ------------------------------------------------------------------ transitions

  /** The volume before its first entry. */
  const EMPTY: State := State(DATA_START, map[], map[], map[], {}, [0, 0, 0, 0, 0, 0, 0, 0, 0, 0, 0])

  /** May the link of `f` be pushed to class `j`? A complex block takes its successor for a complex block too. */
  ghost predicate LinkBin(st: State, f: Free, j: nat) {
    match f
    case Free4(_) => j == BinId(SIMPLE4_SIZE)
    case Free8(_) => j == BinId(SIMPLE8_SIZE)
    case FreeComplex(next, _) =>
      && j < BIN_COUNT
      && (next in st.free && st.free[next].FreeComplex? ==> j == BinId(st.free[next].size + COMPLEX_DATA))
  }

  lemma LinkedFits(st: State, f: Free, j: nat)
    requires LinkBin(st, f, j)
    ensures j < BIN_COUNT && LeastInBin(j) <= LeastLinked(f)
  {
  }

  /** Taking the head of class `k`: the class is emptied, and the rest of the list goes to class `j`. */
  function Detach(st: State, k: nat, j: nat): State
    requires k < |st.bins| && j < |st.bins| && st.bins[k] in st.free
  {
    var o := st.bins[k];
    var next := st.free[o].next;
    var bins := st.bins[k := 0];
    st.(bins := if next == 0 then bins else bins[j := next], free := st.free - {o}, used := st.used + {o})
  }

  /** The free block that splitting leaves when `size` bytes of capacity remain. */
  function Remainder(bins: seq<nat>, size: nat): Free
    requires |bins| == BIN_COUNT
  {
    var next := bins[BinId(size)];
    if size > COMPLEX_SIZE then FreeComplex(next, size)
    else if size < SIMPLE8_SIZE then Free4(next)
    else Free8(next)
  }

  /** What block `o` owns behind its first `entry` bytes. */
  function Behind(extent: map<nat, nat>, o: nat, entry: nat): nat {
    if o in extent && entry <= extent[o] then extent[o] - entry else 0
  }

  /** Cutting block `o` after `entry` bytes, with `size` bytes of capacity left over. */
  function Cut(st: State, o: nat, entry: nat, size: nat): State
    requires |st.bins| == BIN_COUNT
  {
    if size < SIMPLE4_SIZE then st
    else
      st.(extent := st.extent[o := entry][o + entry := Behind(st.extent, o, entry)],
          free := st.free[o + entry := Remainder(st.bins, size)],
          bins := st.bins[BinId(size) := o + entry])
  }

  function Place(st: State, o: nat, h: SimpleHeader): State {
    st.(live := st.live[o := h], used := st.used - {o})
  }

  function Update(st: State, o: nat, h: SimpleHeader): State {
    st.(live := st.live[o := h])
  }

  function Release(st: State, o: nat): State
    requires |st.bins| == BIN_COUNT && o in st.live
  {
    var size := st.live[o].Size();
    var next := st.bins[BinId(size)];
    st.(live := st.live - {o},
        free := st.free[o := if size == SIMPLE4_SIZE then Free4(next) else Free8(next)],
        bins := st.bins[BinId(size) := o])
  }

  /** One more cluster at the end of the device, linked to `next` and not yet referred to. */
  function AddCluster(st: State, next: nat): State {
    st.(end := st.end + CLUSTER_SIZE,
        extent := st.extent[st.end := CLUSTER_SIZE],
        free := st.free[st.end := FreeComplex(next, CLUSTER_SIZE - COMPLEX_DATA)])
  }

  // ---------------------------------------------------------- soundness is preserved

  /** Putting a new block at the front of a list. */
  lemma PushRefs(free: map<nat, Free>, extent: map<nat, nat>, extent': map<nat, nat>, bins: seq<nat>,
                 p: nat, f: Free, b: nat)
    requires free.Keys <= extent.Keys && free.Keys <= extent'.Keys && p in extent' && |bins| == BIN_COUNT
    requires RefsFree(free, extent, bins) && RefsApart(free, bins)
    requires b < BIN_COUNT && p != 0 && p !in free && f.next == bins[b]
    requires forall o | o in free :: extent'[o] == extent[o]
    requires LeastLinked(f) <= LeastInBin(b) <= extent'[p]
    ensures RefsFree(free[p := f], extent', bins[b := p]) && RefsApart(free[p := f], bins[b := p])
  {
    var free', bins' := free[p := f], bins[b := p];
    forall o | o in free'
      ensures LinkFree(free', extent', o)
    {
      if o != p {
        assert LinkFree(free, extent, o);
      }
    }
    forall o | o in free
      ensures free[o].next != p
    {
      assert LinkFree(free, extent, o);
    }
  }

  /** Taking the head of a list and referring to its successor from a class instead. */
  lemma PopRefs(free: map<nat, Free>, extent: map<nat, nat>, bins: seq<nat>, k: nat, j: nat)
    requires free.Keys <= extent.Keys && |bins| == BIN_COUNT
    requires RefsFree(free, extent, bins) && RefsApart(free, bins)
    requires k < BIN_COUNT && bins[k] != 0 && j < BIN_COUNT
    requires LeastInBin(j) <= LeastLinked(free[bins[k]])
    ensures var next := free[bins[k]].next;
            var bins' := if next == 0 then bins[k := 0] else bins[k := 0][j := next];
            RefsFree(free - {bins[k]}, extent, bins') && RefsApart(free - {bins[k]}, bins')
  {
    var o := bins[k];
    var next := free[o].next;
    var free' := free - {o};
    var bins' := if next == 0 then bins[k := 0] else bins[k := 0][j := next];
    assert LinkFree(free, extent, o);
    assert next != o;
    forall i | 0 <= i < BIN_COUNT && bins'[i] != 0
      ensures bins'[i] in free' && LeastInBin(i) <= extent[bins'[i]]
    {
    }
    forall q | q in free'
      ensures LinkFree(free', extent, q)
    {
      assert LinkFree(free, extent, q);
    }
  }

  /** A head leads to a free block. */
  lemma HeadIsFree(st: State, k: nat)
    requires Sound(st) && k < BIN_COUNT
    ensures |st.bins| == BIN_COUNT && 0 !in st.free && (st.bins[k] != 0 ==> st.bins[k] in st.free)
  {
  }

  lemma DetachSound(st: State, k: nat, j: nat)
    requires Sound(st) && k < BIN_COUNT && st.bins[k] != 0
    requires LinkBin(st, st.free[st.bins[k]], j)
    ensures j < BIN_COUNT && Sound(Detach(st, k, j))
  {
    hide Tiled, RefsFree, RefsApart, LinkBin;
    HeadIsFree(st, k);
    LinkedFits(st, st.free[st.bins[k]], j);
    var r := Detach(st, k, j);
    assert Partitioned(r) by {
      assert r.live.Keys + r.free.Keys + r.used == st.extent.Keys;
    }
    PopRefs(st.free, st.extent, st.bins, k, j);
    assert Sized(r);
  }

  lemma CutApart(extent: map<nat, nat>, o: nat, entry: nat, rest: nat)
    requires Apart(extent)
    requires o in extent && 0 < entry && 0 < rest && extent[o] == entry + rest
    ensures o + entry !in extent
    ensures Apart(extent[o := entry][o + entry := rest])
  {
  }

  lemma CutChained(extent: map<nat, nat>, end: nat, o: nat, entry: nat, rest: nat)
    requires Chained(extent, end)
    requires o in extent && 0 < entry && extent[o] == entry + rest && o + entry !in extent
    ensures Chained(extent[o := entry][o + entry := rest], end)
  {
    var e := extent[o := entry][o + entry := rest];
    forall q | q in e
      ensures Abuts(e, end, q)
    {
      assert Abuts(extent, end, if q == o + entry then o else q);
    }
  }

  lemma CutTiled(extent: map<nat, nat>, end: nat, o: nat, entry: nat, rest: nat)
    requires Tiled(extent, end) && o in extent && 0 < entry && 0 < rest && extent[o] == entry + rest
    ensures o + entry !in extent
    ensures Tiled(extent[o := entry][o + entry := rest], end)
  {
    CutApart(extent, o, entry, rest);
    CutChained(extent, end, o, entry, rest);
  }

  lemma CutSized(st: State, o: nat, entry: nat, size: nat)
    requires Partitioned(st) && Sized(st) && |st.bins| == BIN_COUNT && o in st.used && o + entry !in st.extent
    requires SIMPLE4_SIZE <= size && entry + size + COMPLEX_DATA <= st.extent[o]
    requires Partitioned(Cut(st, o, entry, size))
    ensures Sized(Cut(st, o, entry, size))
  {
  }

  lemma CutLinked(st: State, o: nat, entry: nat, size: nat)
    requires Partitioned(st) && Linked(st) && o in st.extent && 0 < entry && o + entry !in st.extent
    requires o !in st.free && SIMPLE4_SIZE <= size && entry + size + COMPLEX_DATA <= st.extent[o]
    requires Partitioned(Cut(st, o, entry, size))
    ensures Linked(Cut(st, o, entry, size))
  {
    var r := Cut(st, o, entry, size);
    var b := BinId(size);
    var f := Remainder(st.bins, size);
    assert LeastLinked(f) <= LeastInBin(b) <= size + COMPLEX_DATA;
    PushRefs(st.free, st.extent, r.extent, st.bins, o + entry, f, b);
  }

  lemma CutPartitioned(st: State, o: nat, entry: nat, size: nat)
    requires Partitioned(st) && o in st.used && o + entry !in st.extent && |st.bins| == BIN_COUNT
    ensures Partitioned(Cut(st, o, entry, size))
  {
    var r := Cut(st, o, entry, size);
    assert r.extent.Keys == r.live.Keys + r.free.Keys + r.used;
  }

  lemma CutSound(st: State, o: nat, entry: nat, size: nat)
    requires Sound(st) && o in st.used
    requires 0 < entry && entry + size + COMPLEX_DATA <= st.extent[o]
    ensures Sound(Cut(st, o, entry, size))
  {
    if size >= SIMPLE4_SIZE {
      CutTiled(st.extent, st.end, o, entry, Behind(st.extent, o, entry));
      CutPartitioned(st, o, entry, size);
      CutSized(st, o, entry, size);
      CutLinked(st, o, entry, size);
    }
  }

  lemma PlaceSound(st: State, o: nat, h: SimpleHeader)
    requires Sound(st) && o in st.used && h.Valid() && h.Size() <= st.extent[o]
    ensures Sound(Place(st, o, h))
  {
    var r := Place(st, o, h);
    assert r.live.Keys + r.free.Keys + r.used == st.extent.Keys;
  }

  lemma UpdateSound(st: State, o: nat, h: SimpleHeader)
    requires Sound(st) && o in st.live && h.Valid() && h.Size() == st.live[o].Size()
    ensures Sound(Update(st, o, h))
  {
    assert Update(st, o, h).live.Keys == st.live.Keys;
  }

  lemma ReleaseSound(st: State, o: nat)
    requires Sound(st) && o in st.live
    ensures Sound(Release(st, o))
  {
    var r := Release(st, o);
    assert r.live.Keys + r.free.Keys + r.used == st.extent.Keys;
    PushRefs(st.free, st.extent, st.extent, st.bins, o, r.free[o], BinId(st.live[o].Size()));
  }

  lemma AddedRefs(free: map<nat, Free>, extent: map<nat, nat>, bins: seq<nat>, o: nat, f: Free, size: nat)
    requires free.Keys <= extent.Keys && |bins| == BIN_COUNT
    requires RefsFree(free, extent, bins) && RefsApart(free, bins) && o !in extent
    requires f.next != 0 ==> f.next in free && LeastLinked(f) <= extent[f.next] && f.next !in bins
    requires f.next != 0 ==> forall q | q in free :: free[q].next != f.next
    ensures RefsFree(free[o := f], extent[o := size], bins) && RefsApart(free[o := f], bins)
  {
    forall q | q in free
      ensures LinkFree(free[o := f], extent[o := size], q)
    {
      assert LinkFree(free, extent, q);
    }
  }

  lemma AddTiled(extent: map<nat, nat>, end: nat, size: nat)
    requires Tiled(extent, end) && 0 < size <= CLUSTER_SIZE
    ensures end !in extent && Tiled(extent[end := size], end + size)
  {
    forall q | q in extent
      ensures Abuts(extent[end := size], end + size, q)
    {
      assert Abuts(extent, end, q);
    }
  }

  lemma AddClusterSound(st: State, next: nat)
    requires Sound(st)
    requires next != 0 ==> next in st.free && COMPLEX_SIZE <= st.extent[next] && next !in st.bins
    requires next != 0 ==> forall o | o in st.free :: st.free[o].next != next
    ensures Sound(AddCluster(st, next))
    ensures st.end !in st.extent
  {
    AddTiled(st.extent, st.end, CLUSTER_SIZE);
    AddedPartitioned(st, next);
    AddedSized(st, next);
    AddedRefs(st.free, st.extent, st.bins, st.end, FreeComplex(next, CLUSTER_SIZE - COMPLEX_DATA), CLUSTER_SIZE);
  }

  lemma AddedPartitioned(st: State, next: nat)
    requires Partitioned(st) && st.end !in st.extent
    ensures Partitioned(AddCluster(st, next))
  {
    var r := AddCluster(st, next);
    assert r.extent.Keys == r.live.Keys + r.free.Keys + r.used;
  }

  lemma AddedSized(st: State, next: nat)
    requires Partitioned(st) && Sized(st) && st.end !in st.extent && Partitioned(AddCluster(st, next))
    ensures Sized(AddCluster(st, next))
  {
  }
}
