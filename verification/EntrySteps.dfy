/**
 * The steps of the entry manager on images and block states: what each write and each change of the list heads leads
 * to. The methods of EntriesManager are put together from these.
 */
module EntrySteps {
  import opened Bytes
  import opened Errors
  import opened Layout
  import opened Freelist
  import opened Blocks
  import opened Image
  import opened Shape
  import opened Allocation
  import opened Segregation
  import opened Blanks
  import opened LongDeletion
  import opened DataReaderWriter
  import opened Chains
  import opened EntriesAllocator
  import opened Time
  import opened Values

  /** The size of the header of a simple entry of the given type. */
  function SizeOfKind(kind: byte): nat {
    if kind <= FLOAT then SIMPLE4_SIZE else SIMPLE8_SIZE
  }

  /** Is there something to read at `o`? Where a complex value begins, there must be a chain that spells `data`. */
  ghost predicate Readable(bytes: seq<byte>, o: nat, data: seq<byte>) {
    && o + 2 <= |bytes|
    && (bytes[o] <= UINT64 ==> o + SizeOfKind(bytes[o]) <= |bytes|)
    && (bytes[o] == STRING || bytes[o] == BLOB ==>
          o + COMPLEX_SIZE <= |bytes| && (BeginsAt(bytes, o) ==> ChainAt(bytes, o, data, true)))
  }

  /** What reading the entry at `o` yields. */
  ghost function Content(bytes: seq<byte>, o: nat, data: seq<byte>): Result<Value>
    requires Readable(bytes, o, data)
  {
    var kind := bytes[o];
    if kind > BLOB then Err(CorruptedHeaderError)
    else if kind == STRING || kind == BLOB then
      if !BeginsAt(bytes, o) || |data| > MAXIMUM_TYPE_SIZE then Err(CorruptedHeaderError)
      else Ok(if kind == STRING then Str(data) else Blob(data))
    else Ok(ValueOf(kind, UnpackSimple(bytes[o..o + SizeOfKind(kind)]).Word()).value)
  }

  /**
   * A value written as a chain is read back as itself at the offset of its first chunk, unless it is longer than the
   * format allows. The chunks lie in blocks of their own, none of which was in use before, and add up to the value.
   */
  lemma WrittenReadsBack(bytes: seq<byte>, st: State, blocks: seq<nat>, data: seq<byte>, spare: nat, kind: byte,
                         before: set<nat>)
    requires Writing(bytes, st, blocks, data, spare, |data|, kind, before) && blocks != []
    requires kind == STRING || kind == BLOB
    ensures Readable(bytes, blocks[0], data)
    ensures Content(bytes, blocks[0], data) == if |data| > MAXIMUM_TYPE_SIZE then Err(CorruptedHeaderError)
                                               else Ok(if kind == STRING then Str(data) else Blob(data))
    ensures ChunkSum(bytes, blocks) == |data|
    ensures forall i, j | 0 <= i < j < |blocks| :: blocks[i] != blocks[j]
    ensures forall o | o in blocks :: o in st.used && o !in before
    ensures st.used == before + (set o | o in blocks) + {spare} && spare !in blocks && spare !in before
  {
    hide ChainVia, ChainAt, ChunksFit;
    ChainIsComplete(bytes, blocks, data, true, spare);
    ChunksAddUp(bytes, blocks, data, true, spare, |data|);
    StartsOnDevice(bytes, blocks[0], data);
  }

  /** One round of the chunk writer: the next block is allocated, then the block in hand is written. */
  lemma ChunkStep(b: seq<byte>, b0: seq<byte>, b1: seq<byte>, ost: State, st0: State, st1: State, blocks: seq<nat>,
                  data: seq<byte>, stop: nat, written: nat, kind: byte, next: nat)
    requires Writing(b0, st0, blocks, data, stop, written, kind, ost.used) && written < |data| < U64
    requires BlocksKept(b, b0, ost, st0, {}) && BlocksKept(b0, b1, st0, st1, {})
    requires stop in st0.extent && Ready(b0, stop, st0.extent[stop], |data| - written)
    requires Sound(st0) && st0.live == ost.live && Sound(st1) && Holds(b1, st1) && |b1| < U64
    requires st1.used == st0.used + {next} && next !in st0.used && next in st1.extent && next < |b1|
    requires COMPLEX_SIZE <= st1.extent[next]
    ensures stop + COMPLEX_SIZE <= |b1| && ChunkSize(b1, stop) == ChunkSize(b0, stop)
    ensures var n, rest := ChunkSize(b1, stop), |data| - written;
            var w := if n < rest then n else rest;
            && stop + COMPLEX_DATA + w <= |b1| && stop + COMPLEX_SIZE <= |b0| && (w < rest ==> ChunkSize(b0, stop) < rest)
            && var b2 := ChunkWritten(b1, stop, kind, blocks == [], next, data[written..]);
            && Writing(b2, st1, blocks + [stop], data, next, written + w, kind, ost.used)
            && Holds(b2, st1) && |b2| == |b1| && BlocksKept(b, b2, ost, st1, {})
            && (Suits(b1, st1, next, rest) ==> Suits(b2, st1, next, rest - w))
  {
    hide Sound, Holds, Kept, BlocksKept, Ready, Writing, ChunkSize, ChunkWritten, Segregated;
    var rest := |data| - written;
    ReadyInRange(b0, stop, st0.extent[stop], rest);
    var n := ChunkSize(b0, stop);
    StopFacts(b0, b1, ost, st0, st1, blocks, data, stop, written, kind);
    ReadyInRange(b1, stop, st1.extent[stop], rest);
    ChunkAdded(b0, b1, st0, st1, blocks, data, stop, written, kind, ost.used, next, n);
    var b2 := ChunkWritten(b1, stop, kind, blocks == [], next, data[written..]);
    ChunkElsewhere(b, b0, b1, b2, ost, st0, st1, stop);
    if Suits(b1, st1, next, rest) {
      OtherReady(b1, b2, st1, stop, next, rest, rest - if n < rest then n else rest);
      ReadyInRange(b2, next, st1.extent[next], rest - if n < rest then n else rest);
    }
  }

  /** Can the writer go on when the block in hand does not take all of the `rest`? */
  ghost predicate Supplied(st: State, rest: nat) {
    (Segregated(st) && COMPLEX_DATA < rest) || Admits(st, rest)
  }

  /** A block that takes the next chunk of a value; if it is too small for the rest, it is a large one all the same. */
  ghost predicate Suits(bytes: seq<byte>, st: State, o: nat, rest: nat) {
    && o in st.extent && Ready(bytes, o, st.extent[o], rest) && 0 < ChunkSize(bytes, o)
    && (ChunkSize(bytes, o) < rest ==> Segregated(st) && COMPLEX_DATA < ChunkSize(bytes, o))
  }

  /** The block in hand of a writer with `rest` bytes to go. Only the first one may take nothing. */
  ghost predicate InHand(bytes: seq<byte>, st: State, o: nat, rest: nat, first: bool) {
    && o in st.extent && Ready(bytes, o, st.extent[o], rest) && (first || 0 < ChunkSize(bytes, o))
    && (ChunkSize(bytes, o) < rest ==> Supplied(st, rest))
  }

  lemma SuitsInHand(bytes: seq<byte>, st: State, o: nat, rest: nat, first: bool)
    requires Suits(bytes, st, o, rest)
    ensures InHand(bytes, st, o, rest, first)
  {
    hide Segregated, Admits;
  }

  lemma HandReady(bytes: seq<byte>, st: State, o: nat, rest: nat, first: bool)
    requires InHand(bytes, st, o, rest, first)
    ensures o in st.extent && Ready(bytes, o, st.extent[o], rest) && o + COMPLEX_SIZE <= |bytes|
    ensures ChunkSize(bytes, o) < rest ==> Supplied(st, rest)
    ensures first || 0 < ChunkSize(bytes, o)
  {
    hide Segregated, Admits;
  }

  /** The block in hand belongs to the writer, and the allocation of its successor has left it alone. */
  lemma StopFacts(b0: seq<byte>, b1: seq<byte>, ost: State, st0: State, st1: State, blocks: seq<nat>, data: seq<byte>,
                  stop: nat, written: nat, kind: byte)
    requires Writing(b0, st0, blocks, data, stop, written, kind, ost.used) && written < |data|
    requires BlocksKept(b0, b1, st0, st1, {})
    requires stop in st0.extent && Ready(b0, stop, st0.extent[stop], |data| - written)
    requires Sound(st0) && st0.live == ost.live
    ensures stop in st0.used && stop !in ost.used && stop !in ost.live && ost.used <= st0.used
    ensures stop in st1.extent && st1.extent[stop] == st0.extent[stop]
    ensures Ready(b1, stop, st1.extent[stop], |data| - written) && ChunkSize(b1, stop) == ChunkSize(b0, stop)
  {
    hide ChainVia, ChunksFit, Ready, ChunkSize;
    SameChunk(b0, b1, st0, st1, stop, |data| - written);
  }

  lemma BlocksKeptTrans(b: seq<byte>, b0: seq<byte>, b1: seq<byte>, ost: State, st0: State, st1: State)
    requires BlocksKept(b, b0, ost, st0, {}) && BlocksKept(b0, b1, st0, st1, {})
    requires ost.used <= st0.used && st0.live == ost.live
    ensures BlocksKept(b, b1, ost, st1, {})
  {
    hide SameBlock;
    forall o | o in ost.live || o in ost.used
      ensures o in ost.extent && o in st1.extent && st1.extent[o] == ost.extent[o] && SameBlock(b, b1, o, ost.extent[o])
    {
      SameTrans(b, b0, b1, o, ost.extent[o]);
    }
  }

  /** Everything that was in use before the writer started has still its bytes. */
  lemma ChunkElsewhere(b: seq<byte>, b0: seq<byte>, b1: seq<byte>, b2: seq<byte>, ost: State, st0: State, st1: State,
                       stop: nat)
    requires BlocksKept(b, b0, ost, st0, {}) && BlocksKept(b0, b1, st0, st1, {})
    requires Kept(b1, b2, st1.extent - {stop}) && stop !in ost.used && stop !in ost.live
    requires ost.used <= st0.used && st0.live == ost.live
    ensures BlocksKept(b, b2, ost, st1, {})
  {
    hide SameBlock;
    forall o | o in ost.live || o in ost.used
      ensures o in ost.extent && o in st1.extent && st1.extent[o] == ost.extent[o] && SameBlock(b, b2, o, ost.extent[o])
    {
      assert o in st1.extent - {stop};
      SameTrans(b, b0, b1, o, ost.extent[o]);
      SameTrans(b, b1, b2, o, ost.extent[o]);
    }
  }

  // ---------------------------------------------------------------- simple entries

  /** What a user sees of an entry. */
  datatype Entry = Entry(value: Value, expiry: Option<Time>)

  /** The header of a simple entry: its type is one of the fixed-size ones and matches its size. */
  predicate Typed(h: SimpleHeader) {
    h.Valid() && h.kind <= UINT64 && (h.kind <= FLOAT <==> h.Size() == SIMPLE4_SIZE)
  }

  function ExpiryOf(h: SimpleHeader): Option<Time>
    requires h.Valid()
  {
    WordRanges();
    if HasExpiry(h.state) then Some(Time(h.high, h.Low())) else None
  }

  function EntryOf(h: SimpleHeader): Entry
    requires Typed(h)
  {
    Entry(ValueOf(h.kind, h.Word()).value, ExpiryOf(h))
  }

  lemma EntryIsFixed(h: SimpleHeader)
    requires Typed(h)
    ensures EntryOf(h).value.Fixed() && EntryOf(h).value.HeaderSize() == SizeOfKind(h.kind)
  {
  }

  lemma ExpiryIsValid(h: SimpleHeader)
    requires Typed(h)
    ensures EntryOf(h).expiry.Some? ==> EntryOf(h).expiry.value.Valid()
  {
    WordRanges();
  }

  /** What a reader finds in a simple entry. */
  lemma LiveOnDevice(bytes: seq<byte>, st: State, o: nat)
    requires Sound(st) && Holds(bytes, st) && o in st.live && Typed(st.live[o])
    ensures |st.bins| == BIN_COUNT && o in st.extent && o !in st.free && o != 0
    ensures var h := st.live[o];
            var size := SizeOfKind(h.kind);
            && o + size <= |bytes| && bytes[o] == h.kind && size == h.Size() <= st.extent[o]
            && UnpackSimple(bytes[o..o + size]) == h
    ensures Readable(bytes, o, []) && Content(bytes, o, []) == Ok(EntryOf(st.live[o]).value)
  {
    var h := st.live[o];
    assert LiveAt(bytes, o, h);
    UnpackPackSimple(h);
    assert bytes[o] == bytes[o..o + h.Size()][0];
  }

  lemma DatedHeader(h: SimpleHeader, expired: Time)
    requires Typed(h) && expired.Valid()
    ensures var d := h.WithExpiry(expired.high, expired.low);
            Typed(d) && d.Size() == h.Size() && EntryOf(d) == Entry(EntryOf(h).value, Some(expired))
  {
    ExpiryOfDated(h, expired.high, expired.low);
  }

  /** Only the expiry date of entry `o` has changed. */
  ghost predicate Dated(st: State, st': State, o: nat, expired: Time) {
    && o in st.live && Typed(st.live[o]) && st'.live.Keys == st.live.Keys && Typed(st'.live[o])
    && EntryOf(st'.live[o]) == Entry(EntryOf(st.live[o]).value, Some(expired))
    && (forall p | p in st.live && p != o :: st'.live[p] == st.live[p])
    && st' == st.(live := st'.live)
  }

  /** Entry `o` is gone, and its block heads the free list of its size. */
  ghost predicate Deleted(st: State, st': State, o: nat) {
    && o in st.live && |st.bins| == BIN_COUNT
    && st' == Release(st, o) && st'.live == st.live - {o} && st'.used == st.used
  }

  /** A freed block serves its size, and what was served before is served still. */
  lemma ReleasedServes(st: State, o: nat)
    requires Sound(st) && o in st.live
    ensures |st.bins| == BIN_COUNT && Serves(Release(st, o).bins, st.live[o].Size())
    ensures forall size | Serves(st.bins, size) :: Serves(Release(st, o).bins, size)
  {
    LiveBlock(st, o);
    SoundBasics(st);
    hide Sound;
    var size, bins := st.live[o].Size(), Release(st, o).bins;
    assert size <= LIMITS[BinId(size)] && bins[BinId(size)] == o != 0;
    forall size | Serves(st.bins, size)
      ensures Serves(bins, size)
    {
      forall i | 0 <= i < BIN_COUNT && st.bins[i] != 0
        ensures bins[i] != 0
      {
      }
    }
  }

  lemma UpdateStep(bytes: seq<byte>, st: State, o: nat, expired: Time, q: Lists)
    requires Sound(st) && Holds(bytes, st) && o in st.live && Typed(st.live[o]) && expired.Valid()
    ensures var h := st.live[o].WithExpiry(expired.high, expired.low);
            && o + h.Size() <= |bytes| && |Splice(bytes, o, h.Pack())| == |bytes|
            && var r, bytes' := Update(st, o, h), Splice(bytes, o, h.Pack());
            && Sound(r) && Holds(bytes', r) && r.end == st.end && r.bins == st.bins
            && Dated(st, r, o, expired) && BlocksKept(bytes, bytes', st, r, {o})
            && (Shaped(st, q) ==> Shaped(r, q)) && (Blank(bytes, st) ==> Blank(bytes', r))
  {
    hide Splice, Kept, Holds, Typed, EntryOf, Blank;
    InUseNotFree(st, o);
    var h := st.live[o].WithExpiry(expired.high, expired.low);
    DatedHeader(st.live[o], expired);
    TypedIsValid(st.live[o]);
    TypedIsValid(h);
    UpdateSound(st, o, h);
    HoldsUpdate(bytes, st, o, h);
    InUseKept(bytes, Splice(bytes, o, h.Pack()), st, Update(st, o, h), o);
    if Blank(bytes, st) {
      BlankElsewhere(bytes, Splice(bytes, o, h.Pack()), st, Update(st, o, h), o);
    }
  }

  lemma TypedIsValid(h: SimpleHeader)
    requires Typed(h)
    ensures h.Valid()
  {
  }

  lemma InUseKept(bytes: seq<byte>, bytes': seq<byte>, st: State, st': State, o: nat)
    requires Sound(st) && Kept(bytes, bytes', st.extent - {o}) && st'.extent == st.extent
    ensures BlocksKept(bytes, bytes', st, st', {o})
  {
    forall p | (p in st.live || p in st.used) && p != o
      ensures SameBlock(bytes, bytes', p, st.extent[p])
    {
      assert p in st.extent - {o};
    }
  }

  /** The header that a deleted entry gets. */
  function FreedHeader(h: SimpleHeader, next: nat): SimpleHeader
    requires h.Valid()
  {
    h.(kind := if h.Size() == SIMPLE4_SIZE then EMPTY4 else EMPTY8, state := STATE_EMPTY).WithNext(next)
  }

  lemma FreedFacts(h: SimpleHeader, next: nat)
    requires h.Valid() && next < U64
    ensures var freed := FreedHeader(h, next);
            && freed.Valid() && freed.Size() == h.Size()
            && FreeImage(freed.Pack(), if h.Size() == SIMPLE4_SIZE then Free4(next) else Free8(next))
  {
    NextOfLinked(h.(kind := if h.Size() == SIMPLE4_SIZE then EMPTY4 else EMPTY8, state := STATE_EMPTY), next);
    UnpackPackSimple(FreedHeader(h, next));
  }

  lemma LiveBlock(st: State, o: nat)
    requires Sound(st) && o in st.live
    ensures o in st.extent && o !in st.free && DATA_START <= o && st.live[o].Valid()
  {
  }

  lemma UsedBlock(st: State, o: nat)
    requires Sound(st) && o in st.used
    ensures o in st.extent && DATA_START <= o && 0 < st.extent[o]
  {
  }

  lemma EmptyIsSound()
    ensures Sound(EMPTY) && Shaped(EMPTY, NO_LISTS)
    ensures forall bytes: seq<byte> | |bytes| == DATA_START :: Holds(bytes, EMPTY)
  {
  }

  lemma ReleaseImage(bytes: seq<byte>, st: State, o: nat, header: SimpleHeader)
    requires Sound(st) && Holds(bytes, st) && o in st.live && |st.bins| == BIN_COUNT && |bytes| < U64
    requires Typed(st.live[o]) && header == FreedHeader(st.live[o], st.bins[BinId(st.live[o].Size())])
    ensures o + header.Size() <= |bytes| && header.Size() == st.live[o].Size()
    ensures |Splice(bytes, o, header.Pack())| == |bytes|
    ensures Sound(Release(st, o)) && Holds(Splice(bytes, o, header.Pack()), Release(st, o))
    ensures BlocksKept(bytes, Splice(bytes, o, header.Pack()), st, Release(st, o), {o})
    ensures Segregated(st) ==> Segregated(Release(st, o))
    ensures Blank(bytes, st) ==> Blank(Splice(bytes, o, header.Pack()), Release(st, o))
  {
    SplitFits(bytes, st, o);
    LiveBlock(st, o);
    InUseNotFree(st, o);
    hide Splice, Kept, Holds, Sound, FreeImage, FreedHeader, Typed, BlocksKept, Segregated, Blank;
    if Segregated(st) {
      ReleaseSegregated(st, o);
    }
    FreedFacts(st.live[o], st.bins[BinId(st.live[o].Size())]);
    ReleaseSound(st, o);
    HoldsRelease(bytes, st, o, header.Pack());
    InUseKept(bytes, Splice(bytes, o, header.Pack()), st, Release(st, o), o);
    if Blank(bytes, st) {
      ReleaseFree(st, o);
      BlankElsewhere(bytes, Splice(bytes, o, header.Pack()), st, Release(st, o), o);
    }
  }

  lemma ReleaseFree(st: State, o: nat)
    requires |st.bins| == BIN_COUNT && o in st.live && o !in st.free && st.live[o].Valid()
    ensures var r := Release(st, o);
            && |r.bins| == BIN_COUNT && r.bins[2] == st.bins[2] && r.free - {o} == st.free && !r.free[o].FreeComplex?
  {
    assert Release(st, o).free - {o} == st.free;
  }

  lemma ReleaseStep(st: State, o: nat, q: Lists)
    requires o in st.live && |st.bins| == BIN_COUNT && st.live[o].Valid() && o !in st.free && o != 0
    ensures Deleted(st, Release(st, o), o) && Release(st, o).end == st.end
    ensures Release(st, o).bins == st.bins[BinId(st.live[o].Size()) := o]
    ensures Shaped(st, q) ==> Shaped(Release(st, o), Released(q, o, st.live[o].Size()))
    ensures Released(q, o, st.live[o].Size()).lost == q.lost
  {
    hide Shaped;
    if Shaped(st, q) {
      ReleaseShaped(st, q, o);
    }
  }

  // --------------------------------------------------------------- complex entries

  /** While the lists are segregated, the block for a chunk is a complex one, cut to size or used up. */
  lemma NewChunk(bytes: seq<byte>, st: State, g: State, st': State, rest: nat, o: nat, k: nat, count: nat)
    requires Sound(st) && Sound(g) && GrownFrom(st, g, count) && k < BIN_COUNT
    requires Sound(st') && Holds(bytes, st') && Allocated(g, st', rest + COMPLEX_SIZE, o, k)
    requires o in st'.extent && o in g.free
    requires HeaderSize(g.free[o]) <= st'.extent[o] ==> FreeAt(bytes, o, g.free[o])
    ensures COMPLEX_SIZE <= st'.extent[o] && o + COMPLEX_SIZE <= |bytes| && BLOB < bytes[o]
    ensures Segregated(st) && 24 < rest ==> Suits(bytes, st', o, rest)
  {
    hide Sound, Holds, Segregated, Allocated, FreeAt, GrownFrom, UnpackComplex, UnpackSimple;
    ChunkInRange(bytes, g, st', rest + COMPLEX_SIZE, o, k);
    FreeHeader(bytes, o, g.free[o]);
    if Segregated(st) && 24 < rest {
      GrownFromSegregated(st, g, count);
      ChunkSegregated(g, st', rest + COMPLEX_SIZE, o, k);
    }
  }

  lemma GrownFromSegregated(st: State, g: State, count: nat)
    requires Sound(st) && GrownFrom(st, g, count) && Segregated(st)
    ensures Segregated(g)
  {
    hide Sound, Segregated, Clusters, Grown;
    if count > 0 {
      GrownSegregated(st, count);
    }
  }

  /**
   * Would a value of `length` bytes get a complex block that takes all of it? If no class has one, the volume grows, and
   * the block is a whole cluster.
   */
  ghost predicate Admits(st: State, length: nat) {
    && |st.bins| == BIN_COUNT
    && var k := PopBin(st.bins, length + COMPLEX_SIZE);
    if k < 0 then length <= WHOLE
    else st.bins[k] in st.free && st.free[st.bins[k]].FreeComplex? && length <= st.free[st.bins[k]].size
  }

  /** What is left of the block that a chunk of `rest` bytes is cut from; nothing if the block is used up. */
  ghost function LeftOver(st: State, rest: nat): nat
    requires |st.bins| == BIN_COUNT
  {
    var k, entry := PopBin(st.bins, rest + COMPLEX_SIZE), rest + COMPLEX_SIZE;
    var size := if k < 0 then WHOLE else if st.bins[k] in st.free && st.free[st.bins[k]].FreeComplex?
                then st.free[st.bins[k]].size else 0;
    if entry <= size then size - entry else 0
  }

  /**
   * Does storing a value of `length` bytes keep the lists segregated? It does if its first block takes all of it and is
   * not cut to a remainder for class 2, which must be empty.
   */
  ghost predicate KeepsApart(st: State, length: nat) {
    && Segregated(st) && 24 < length && Admits(st, length) && st.bins[2] == 0
    && !(16 < LeftOver(st, length) <= 64)
  }

  /** The allocation of the first block leaves class 2 empty, and that of the spare one the lists segregated. */
  lemma ChunkApart(st: State, g: State, st': State, rest: nat, o: nat, k: nat, count: nat)
    requires Sound(st) && Sound(g) && GrownFrom(st, g, count) && 24 < rest && k < BIN_COUNT
    requires count > 0 ==> |st.bins| == BIN_COUNT && PopBin(st.bins, rest + COMPLEX_SIZE) < 0
    requires Allocated(g, st', rest + COMPLEX_SIZE, o, k) && Segregated(st) && |st.bins| == BIN_COUNT && st.bins[2] == 0
    ensures Segregated(st')
    ensures !(16 < LeftOver(st, rest) <= 64) ==> |st'.bins| == BIN_COUNT && st'.bins[2] == 0
  {
    hide Sound, Segregated, Clusters, PopBin;
    GrownFromSegregated(st, g, count);
    AllocatedParts(g, st', rest + COMPLEX_SIZE, o, k);
    if count > 0 {
      SoundBasics(st);
      GrowthServes(st.bins, rest + COMPLEX_SIZE, st.end + CLUSTER_SIZE * (count - 1));
      ClustersEnd(st, count);
      ClustersNew(st, count, count - 1);
    }
    hide GrownFrom;
    ChunkKeepsApart(g, st', rest + COMPLEX_SIZE, o, k);
  }

  /** What an allocation for a chunk does to lists that were segregated, with nothing in class 2. */
  ghost predicate KeptApart(st: State, bytes: seq<byte>, st': State, o: nat, rest: nat) {
    && |st.bins| == |st'.bins| == BIN_COUNT && o + COMPLEX_SIZE <= |bytes|
    && (Segregated(st) && st.bins[2] == 0 ==> Segregated(st'))
    && (Segregated(st) && st.bins[2] == 0 && !(16 < LeftOver(st, rest) <= 64) ==> st'.bins[2] == 0)
    && (Admits(st, rest) ==> rest <= ChunkSize(bytes, o))
  }

  lemma ApartStep(st: State, g: State, bytes: seq<byte>, st': State, rest: nat, o: nat, k: nat, count: nat)
    requires Sound(st) && Sound(g) && GrownFrom(st, g, count) && 24 < rest && k < BIN_COUNT && Sound(st')
    requires count > 0 ==> |st.bins| == BIN_COUNT && PopBin(st.bins, rest + COMPLEX_SIZE) < 0
    requires Allocated(g, st', rest + COMPLEX_SIZE, o, k)
    requires o + COMPLEX_SIZE <= |bytes| && (Admits(st, rest) ==> rest <= ChunkSize(bytes, o))
    ensures KeptApart(st, bytes, st', o, rest)
  {
    hide Sound, Segregated, GrownFrom, Allocated, Admits, LeftOver, PopBin, ChunkSize;
    SoundBasics(st);
    SoundBasics(st');
    if Segregated(st) && st.bins[2] == 0 {
      ChunkApart(st, g, st', rest, o, k, count);
    }
  }

  /** The block in hand takes the whole value, and nothing is in class 2. */
  ghost predicate AllInFirst(bytes: seq<byte>, st: State, o: nat, length: nat) {
    |st.bins| == BIN_COUNT && st.bins[2] == 0 && o + COMPLEX_SIZE <= |bytes| && length <= ChunkSize(bytes, o)
  }

  lemma ApartIsLong(st: State, length: nat)
    ensures KeepsApart(st, length) ==> 24 < length
  {
    hide Segregated, Admits, LeftOver;
  }

  lemma ApartStarts(st: State, bytes: seq<byte>, st': State, o: nat, length: nat)
    requires KeptApart(st, bytes, st', o, length)
    ensures KeepsApart(st, length) ==> Segregated(st') && AllInFirst(bytes, st', o, length)
  {
    hide Segregated, Admits, LeftOver, ChunkSize;
  }

  lemma ApartEnds(b0: seq<byte>, st: State, stop: nat, bytes: seq<byte>, st': State, o: nat, length: nat)
    requires KeptApart(st, bytes, st', o, length) && Segregated(st) && AllInFirst(b0, st, stop, length)
    ensures Segregated(st') && stop + COMPLEX_SIZE <= |b0| && length <= ChunkSize(b0, stop)
  {
    hide Segregated, Admits, LeftOver, ChunkSize;
  }

  /** The block that such a value gets is ready for it. */
  lemma AdmittedChunk(bytes: seq<byte>, st: State, g: State, st': State, length: nat, o: nat, k: nat, count: nat)
    requires Sound(st) && Sound(g) && GrownFrom(st, g, count) && Admits(st, length) && 0 < length
    requires count > 0 ==> PopBin(st.bins, length + COMPLEX_SIZE) < 0
    requires Sound(st') && Holds(bytes, st') && Allocated(g, st', length + COMPLEX_SIZE, o, k)
    requires o in st'.extent && o in g.free && k < BIN_COUNT
    requires HeaderSize(g.free[o]) <= st'.extent[o] ==> FreeAt(bytes, o, g.free[o])
    ensures Suits(bytes, st', o, length) && length <= ChunkSize(bytes, o)
  {
    hide Sound, Holds, Segregated, GrownFrom, FreeAt, Admits, Allocated, PopBin, UnpackComplex;
    SoundBasics(st);
    ChunkInRange(bytes, g, st', length + COMPLEX_SIZE, o, k);
    AllocatedSound(g, st', length + COMPLEX_SIZE, o, k);
    FreeFacts(g, o);
    AdmittedHead(st, g, st', length, o, k, count);
    FreeHeader(bytes, o, g.free[o]);
  }

  lemma AdmittedHead(st: State, g: State, st': State, length: nat, o: nat, k: nat, count: nat)
    requires GrownFrom(st, g, count) && Admits(st, length)
    requires count > 0 ==> PopBin(st.bins, length + COMPLEX_SIZE) < 0 && 0 < st.end
    requires Allocated(g, st', length + COMPLEX_SIZE, o, k)
    ensures o in g.free && g.free[o].FreeComplex? && length <= g.free[o].size
  {
    hide Clusters, PopBin;
    if count > 0 {
      GrowthServes(st.bins, length + COMPLEX_SIZE, st.end + CLUSTER_SIZE * (count - 1));
      ClustersEnd(st, count);
      ClustersNew(st, count, count - 1);
    }
  }

  /**
   * While the lists are segregated, a value of at most 24 bytes gets a complex block exactly if class 2 does not start
   * with a simple one.
   */
  lemma ShortAdmitted(st: State, length: nat)
    requires Sound(st) && Segregated(st) && length <= 24
    ensures Admits(st, length) <==> !(st.bins[2] != 0 && !st.free[st.bins[2]].FreeComplex?)
  {
    var size := length + COMPLEX_SIZE;
    HeadIsFree(st, 2);
    if st.bins[2] != 0 {
      ServedByTwo(st.bins, size);
      ComplexHead(st, 2);
    } else {
      ServedByLater(st.bins, size);
      var k := PopBin(st.bins, size);
      if k >= 0 {
        HeadIsFree(st, k);
        ComplexHead(st, k);
      }
    }
  }

  /**
   * Does a value of `length` bytes keep within the simple block that class 2 starts with, if it does? The bytes where a
   * complex block has its chunk size tell how much of the value is put there.
   */
  ghost predicate ShortFits(bytes: seq<byte>, st: State, length: nat) {
    SimpleTwo(st) ==>
      var o := st.bins[2];
      && o in st.extent && o + COMPLEX_SIZE <= |bytes|
      && var n := ChunkSize(bytes, o);
      COMPLEX_DATA + (if n < length then n else length) <= st.extent[o]
  }

  /** The simple block is taken for a short value; it may take none of it, but then the next block takes all. */
  lemma ShortChunk(b0: seq<byte>, b1: seq<byte>, st: State, g: State, st': State, length: nat, o: nat, k: nat, count: nat)
    requires Sound(st) && Segregated(st) && length <= 24 && SimpleTwo(st) && ShortFits(b0, st, length)
    requires GrownFrom(st, g, count) && (count > 0 ==> PopBin(st.bins, length + COMPLEX_SIZE) < 0)
    requires Sound(st') && Holds(b1, st') && Allocated(g, st', length + COMPLEX_SIZE, o, k)
    requires KeptOld(b0, b1, st.extent, st'.extent) && COMPLEX_SIZE <= st.extent[st.bins[2]]
    ensures InHand(b1, st', o, length, true)
  {
    hide Sound, Holds, Segregated, SameBlock, PopBin, LinkBin, ChunkSize;
    ServedByTwo(st.bins, length + COMPLEX_SIZE);
    var j :| 0 <= j < BIN_COUNT && LinkBin(st, st.free[o], j) && st' == Allocate(st, k, j, length + COMPLEX_SIZE);
    DetachSegregated(st, k, j);
    hide Allocated, Admits;
    SameSize(b0, b1, o, st.extent[o]);
    ShortAdmitted(st', length);
    BlockOnDevice(b1, st', o);
  }

  /** The first block of a value that can be stored. */
  lemma ChunkInHand(b0: seq<byte>, b1: seq<byte>, st: State, g: State, st': State, length: nat, o: nat, k: nat,
                    count: nat)
    requires Sound(st) && Holds(b0, st) && Sound(g) && GrownFrom(st, g, count) && 0 < length && k < BIN_COUNT
    requires count > 0 ==> |st.bins| == BIN_COUNT && PopBin(st.bins, length + COMPLEX_SIZE) < 0
    requires Sound(st') && Holds(b1, st') && Allocated(g, st', length + COMPLEX_SIZE, o, k)
    requires o in st'.extent && o in g.free && KeptOld(b0, b1, st.extent, st'.extent)
    requires HeaderSize(g.free[o]) <= st'.extent[o] ==> FreeAt(b1, o, g.free[o])
    ensures Supplied(st, length) || (Segregated(st) && 24 < length) ==> Suits(b1, st', o, length)
    ensures Segregated(st) && ShortFits(b0, st, length) ==> InHand(b1, st', o, length, true)
    ensures Suits(b1, st', o, length) ==> InHand(b1, st', o, length, true)
    ensures o + COMPLEX_SIZE <= |b1| && (Admits(st, length) ==> length <= ChunkSize(b1, o))
  {
    hide Sound, Holds, Segregated, Allocated, FreeAt, GrownFrom, KeptOld, Admits, Suits, InHand, ShortFits, SimpleTwo;
    SoundBasics(st);
    ChunkInRange(b1, g, st', length + COMPLEX_SIZE, o, k);
    if Segregated(st) && 24 < length {
      NewChunk(b1, st, g, st', length, o, k, count);
    }
    if Admits(st, length) {
      AdmittedChunk(b1, st, g, st', length, o, k, count);
    }
    if Suits(b1, st', o, length) {
      SuitsInHand(b1, st', o, length, true);
    } else if Segregated(st) && ShortFits(b0, st, length) {
      if SimpleTwo(st) {
        TwoIsWide(st);
        ShortChunk(b0, b1, st, g, st', length, o, k, count);
      } else {
        NotSimple(st);
        ShortAdmitted(st, length);
      }
    }
  }

  lemma TwoIsWide(st: State)
    requires Sound(st) && SimpleTwo(st)
    ensures st.bins[2] in st.extent && COMPLEX_SIZE <= st.extent[st.bins[2]]
  {
  }

  lemma NotSimple(st: State)
    requires Sound(st) && !SimpleTwo(st)
    ensures |st.bins| == BIN_COUNT && (st.bins[2] != 0 ==> st.bins[2] in st.free && st.free[st.bins[2]].FreeComplex?)
  {
  }

  /** A block that has no header of a value yet cannot be read. */
  lemma EmptyUnreadable(bytes: seq<byte>, o: nat)
    requires o + 2 <= |bytes| && BLOB < bytes[o]
    ensures Readable(bytes, o, []) && Content(bytes, o, []) == Err(CorruptedHeaderError)
  {
  }

  lemma BlockOnDevice(bytes: seq<byte>, st: State, o: nat)
    requires Sound(st) && Holds(bytes, st) && o in st.extent
    ensures o + st.extent[o] <= |bytes|
  {
  }

  lemma ServedByTwo(bins: seq<nat>, size: nat)
    requires |bins| == BIN_COUNT && COMPLEX_SIZE <= size <= 64 && bins[2] != 0
    ensures PopBin(bins, size) == 2
  {
    FirstFitServes(bins, size, 2);
    SmallClassesRefuse(bins, size);
  }

  lemma ServedByLater(bins: seq<nat>, size: nat)
    requires |bins| == BIN_COUNT && COMPLEX_SIZE <= size && bins[2] == 0
    ensures PopBin(bins, size) < 0 || 3 <= PopBin(bins, size)
  {
    SmallClassesRefuse(bins, size);
  }

  lemma ChunkInRange(bytes: seq<byte>, g: State, st': State, size: nat, o: nat, k: nat)
    requires Sound(g) && Sound(st') && Holds(bytes, st') && Allocated(g, st', size, o, k) && COMPLEX_SIZE <= size
    ensures o in st'.extent && COMPLEX_SIZE <= st'.extent[o] && o + st'.extent[o] <= |bytes|
  {
    AllocatedSound(g, st', size, o, k);
    assert k >= 2 by {
      SmallClassesRefuse(g.bins, size);
    }
  }

  /** The new block: in use, disjoint from everything that was in use, and large enough. */
  lemma NewBlock(b0: seq<byte>, b1: seq<byte>, st: State, g: State, st': State, size: nat, o: nat, k: nat, count: nat,
                 q: Lists)
    requires Sound(st) && Sound(g) && GrownFrom(st, g, count) && 0 < size && k < BIN_COUNT
    requires Allocated(g, st', size, o, k) && KeptOld(b0, b1, st.extent, st'.extent)
    ensures Sound(st') && o != 0 && o in st'.used && o in st'.extent && o !in st.used && o !in st.live
    ensures st'.used == st.used + {o} && st'.live == st.live
    ensures size <= SIMPLE8_SIZE ==> size <= st'.extent[o]
    ensures BlocksKept(b0, b1, st, st', {})
    ensures st'.end == st.end + CLUSTER_SIZE * count
    ensures |g.bins| == BIN_COUNT && g.bins[k] in g.free
    ensures AllocateLists(g, if count == 0 then q else q.(large := NewClusters(st.end, count)), k, size).lost == q.lost
    ensures Shaped(st, q) && (size == SIMPLE4_SIZE || size == SIMPLE8_SIZE) ==>
              Shaped(st', AllocateLists(g, if count == 0 then q else q.(large := NewClusters(st.end, count)), k, size))
    ensures Segregated(st) && (size == SIMPLE4_SIZE || size == SIMPLE8_SIZE) ==> Segregated(st')
  {
    hide Sound, KeptOld, Clusters, Shaped, AllocateLists, GrownFrom, Segregated;
    if Segregated(st) && (size == SIMPLE4_SIZE || size == SIMPLE8_SIZE) {
      GrownFromSegregated(st, g, count);
      AllocatedSegregated(g, st', size, o, k);
    }
    AllocatedParts(g, st', size, o, k);
    AllocatedSound(g, st', size, o, k);
    GrownParts(st, g, count);
    NewBlockKept(b0, b1, st, g, st', o, count);
    NewBlockLists(st, g, st', size, o, k, count, q);
  }

  lemma GrownParts(st: State, g: State, count: nat)
    requires GrownFrom(st, g, count)
    ensures g.live == st.live && g.used == st.used && g.end == st.end + CLUSTER_SIZE * count
  {
    ClustersEnd(st, count);
  }

  lemma NewBlockLists(st: State, g: State, st': State, size: nat, o: nat, k: nat, count: nat, q: Lists)
    requires Sound(st) && Sound(g) && GrownFrom(st, g, count)
    requires Allocated(g, st', size, o, k) && |g.bins| == BIN_COUNT && k < BIN_COUNT && g.bins[k] in g.free
    ensures var r := if count == 0 then q else q.(large := NewClusters(st.end, count));
            && AllocateLists(g, r, k, size).lost == q.lost
            && (Shaped(st, q) && (size == SIMPLE4_SIZE || size == SIMPLE8_SIZE) ==>
                  Shaped(st', AllocateLists(g, r, k, size)))
  {
    hide Sound, Clusters, Shaped, Allocated;
    if Shaped(st, q) && (size == SIMPLE4_SIZE || size == SIMPLE8_SIZE) {
      if count > 0 {
        GrownShaped(st, q, count);
      }
      AllocatedShaped(g, if count == 0 then q else q.(large := NewClusters(st.end, count)), st', size, o, k);
    }
  }

  lemma AllocatedParts(g: State, st': State, size: nat, o: nat, k: nat)
    requires Sound(g) && Allocated(g, st', size, o, k)
    ensures |g.bins| == BIN_COUNT && k < BIN_COUNT && g.bins[k] in g.free && o == g.bins[k] && o != 0
    ensures st'.end == g.end
  {
  }

  lemma NewBlockKept(b0: seq<byte>, b1: seq<byte>, st: State, g: State, st': State, o: nat, count: nat)
    requires Sound(st) && GrownFrom(st, g, count) && KeptOld(b0, b1, st.extent, st'.extent)
    requires o !in st.live && o !in st.used
    requires forall p | p in g.extent && p != o :: p in st'.extent && st'.extent[p] == g.extent[p]
    ensures BlocksKept(b0, b1, st, st', {})
  {
    hide SameBlock, Clusters;
    forall p | p in st.live || p in st.used
      ensures p in st.extent && p in st'.extent && st'.extent[p] == st.extent[p]
    {
      ClustersOld(st, count, p);
    }
  }

  lemma FailedGrowth(b0: seq<byte>, b1: seq<byte>, st: State, count: nat, q: Lists)
    requires Sound(st) && Kept(b0, b1, st.extent)
    ensures Clusters(st, count).live == st.live && Clusters(st, count).used == st.used
    ensures Clusters(st, count).end == st.end + CLUSTER_SIZE * count
    ensures BlocksKept(b0, b1, st, Clusters(st, count), {})
    ensures Shaped(st, q) ==> Shaped(Clusters(st, count), Lose(q, NewClusters(st.end, count)))
    ensures Segregated(st) ==> Segregated(Clusters(st, count))
  {
    hide Segregated, SameBlock, Clusters, Shaped, Sound, Lose, NewClusters;
    ClustersEnd(st, count);
    if Segregated(st) {
      ClustersSegregated(st, count);
    }
    if Shaped(st, q) {
      ClustersShaped(st, q, count);
    }
    forall p | p in st.live || p in st.used
      ensures p in st.extent && p in Clusters(st, count).extent && Clusters(st, count).extent[p] == st.extent[p]
    {
      if p in st.live {
        LiveBlock(st, p);
      } else {
        UsedBlock(st, p);
      }
      ClustersOld(st, count, p);
    }
  }

  /** The header of a new entry stands for its value, without an expiry date. */
  lemma NewHeader(v: Value, memory: SimpleHeader, rest: seq<byte>)
    requires v.Fixed() && v.InRange() && memory.Valid() && memory.Size() == v.HeaderSize()
    requires |rest| == if v.Width() == 8 then 0 else 4 - v.Width()
    ensures var h := SimpleHeader(v.Kind(), STATE_EMPTY, memory.high,
                                  memory.body[..4] + Encode(v.Width(), v.Bits()) + rest);
            Typed(h) && h.Size() == v.HeaderSize() && EntryOf(h) == Entry(v, None)
  {
    var body := memory.body[..4] + Encode(v.Width(), v.Bits()) + rest;
    assert body[4..] == Encode(v.Width(), v.Bits()) + rest;
    ValueRoundTrip(v, rest);
  }

  /** A new entry with value `v` and no expiry date is at `o`; all others are what they were. */
  ghost predicate Stored(st: State, st': State, o: nat, v: Value) {
    && o != 0 && o !in st.live && o !in st.used && st'.used == st.used
    && st'.live.Keys == st.live.Keys + {o}
    && Typed(st'.live[o]) && EntryOf(st'.live[o]) == Entry(v, None)
    && forall p | p in st.live :: st'.live[p] == st.live[p]
  }

  lemma StoredReads(st: State, st': State, o: nat, v: Value)
    requires Stored(st, st', o, v)
    ensures o in st'.live && Typed(st'.live[o]) && EntryOf(st'.live[o]).value == v
  {
  }

  lemma StoredFacts(st: State, st': State, o: nat, v: Value)
    requires Stored(st, st', o, v)
    ensures o in st'.live && st'.used == st.used
  {
  }

  /** Writing the header of a new entry into the block just handed out. */
  lemma PlaceStep(b0: seq<byte>, b1: seq<byte>, st0: State, st: State, o: nat, h: SimpleHeader, v: Value, q: Lists)
    requires Sound(st) && Holds(b1, st) && o in st.used && o in st.extent && h.Size() <= st.extent[o] && o != 0
    requires o !in st0.live && o !in st0.used && BlocksKept(b0, b1, st0, st, {})
    requires st.live == st0.live && st.used == st0.used + {o}
    requires Typed(h) && EntryOf(h) == Entry(v, None)
    ensures o + h.Size() <= |b1|
    ensures var b2 := Splice(b1, o, h.Pack());
            && Sound(Place(st, o, h)) && Holds(b2, Place(st, o, h)) && Place(st, o, h).end == |b2| == |b1|
            && Place(st, o, h).bins == st.bins
            && BlocksKept(b0, b2, st0, Place(st, o, h), {})
            && Stored(st0, Place(st, o, h), o, v)
    ensures Shaped(st, q) ==> Shaped(Place(st, o, h), q)
    ensures Blank(b1, st) ==> Blank(Splice(b1, o, h.Pack()), Place(st, o, h))
  {
    TypedIsValid(h);
    InUseNotFree(st, o);
    hide Sound, Splice, Kept, BlocksKept, Typed, EntryOf, Stored, Holds, Shaped, Blank;
    PlaceSound(st, o, h);
    HoldsPlace(b1, st, o, h);
    PlaceKept(b0, b1, Splice(b1, o, h.Pack()), st0, st, o);
    if Blank(b1, st) {
      BlankElsewhere(b1, Splice(b1, o, h.Pack()), st, Place(st, o, h), o);
    }
    PlaceShaped(st, o, h, q);
    PlaceStores(st0, st, o, h, v);
  }

  lemma InUseNotFree(st: State, o: nat)
    requires Sound(st)
    ensures o in st.used || o in st.live ==> o !in st.free && st.free - {o} == st.free && |st.bins| == BIN_COUNT
  {
  }

  lemma PlaceStores(st0: State, st: State, o: nat, h: SimpleHeader, v: Value)
    requires o !in st0.live && o !in st0.used && o != 0
    requires st.live == st0.live && st.used == st0.used + {o}
    requires Typed(h) && EntryOf(h) == Entry(v, None)
    ensures Stored(st0, Place(st, o, h), o, v)
  {
  }

  lemma PlaceShaped(st: State, o: nat, h: SimpleHeader, q: Lists)
    ensures Shaped(st, q) ==> Shaped(Place(st, o, h), q)
  {
  }

  lemma PlaceKept(b0: seq<byte>, b1: seq<byte>, b2: seq<byte>, st0: State, st: State, o: nat)
    requires o !in st0.live && o !in st0.used && BlocksKept(b0, b1, st0, st, {})
    requires Kept(b1, b2, st.extent - {o})
    ensures forall st': State | st'.extent == st.extent :: BlocksKept(b0, b2, st0, st', {})
  {
    forall p | p in st0.live || p in st0.used
      ensures SameBlock(b0, b2, p, st0.extent[p])
    {
      assert p in st.extent - {o};
    }
  }

  /** `grown` is `st` itself, or `st` with new clusters in a cluster class that was empty. */
  ghost predicate GrownFrom(st: State, grown: State, count: nat) {
    if count == 0 then grown == st else |st.bins| == BIN_COUNT && st.bins[10] == 0 && grown == Grown(st, count)
  }

  lemma PoppedIsFree(st: State, size: nat, k: nat)
    requires Sound(st) && k < BIN_COUNT && |st.bins| == BIN_COUNT && PopBin(st.bins, size) == k
    ensures st.bins[k] != 0 && st.bins[k] in st.free
  {
  }

  /** The header of the block that was popped. */
  lemma TakenBlock(bytes: seq<byte>, g: State, k: nat)
    requires Sound(g) && Holds(bytes, g) && |g.bins| == BIN_COUNT && k < BIN_COUNT
    requires g.bins[k] != 0 && g.bins[k] in g.free
    ensures var o, f := g.bins[k], g.free[g.bins[k]];
            && o in g.extent && FreeAt(bytes, o, f) && o + HeaderSize(f) <= |bytes|
            && bytes[o] == (if f.Free4? then EMPTY4 else if f.Free8? then EMPTY8 else EMPTY_COMPLEX)
            && (f.FreeComplex? ==>
                  && UnpackComplex(bytes[o..o + COMPLEX_SIZE]).overall == f.size
                  && f.size + COMPLEX_DATA <= g.extent[o] <= CLUSTER_SIZE)
    ensures KeptOld(bytes, bytes, g.extent, g.extent)
  {
    hide Sound, Holds, FreeAt, Kept, KeptOld;
    FreeOnDevice(bytes, g, g.bins[k]);
    FreeHeader(bytes, g.bins[k], g.free[g.bins[k]]);
    KeptSame(bytes, g);
    SameKeptOld(bytes, bytes, g.extent);
  }

  lemma GrowthKeeps(b0: seq<byte>, b1: seq<byte>, st: State, g: State, count: nat)
    requires Sound(st) && Kept(b0, b1, st.extent) && GrownFrom(st, g, count)
    ensures KeptOld(b0, b1, st.extent, g.extent)
  {
    hide Sound, SameBlock, Clusters;
    forall o | o in st.extent
      ensures o in g.extent && g.extent[o] == st.extent[o]
    {
      ClustersOld(st, count, o);
    }
  }

  /** The block is handed out whole: it was taken from its list and nothing was written. */
  lemma TakenWhole(bytes: seq<byte>, g: State, size: nat, k: nat, j: nat)
    requires |g.bins| == BIN_COUNT && k < BIN_COUNT && j < BIN_COUNT && PopBin(g.bins, size) == k
    requires g.bins[k] in g.free && LinkBin(g, g.free[g.bins[k]], j) && KeptOld(bytes, bytes, g.extent, g.extent)
    requires g.free[g.bins[k]].FreeComplex? ==> g.free[g.bins[k]].size < size
    ensures Allocated(g, Detach(g, k, j), size, g.bins[k], k)
    ensures KeptOld(bytes, bytes, g.extent, Detach(g, k, j).extent)
    ensures Detach(g, k, j).extent == g.extent
  {
    hide KeptOld, LinkBin, PopBin;
    assert Detach(g, k, j) == Allocate(g, k, j, size);
  }

  lemma TakenUsed(g: State, k: nat, j: nat)
    requires |g.bins| == BIN_COUNT && k < BIN_COUNT && j < BIN_COUNT && g.bins[k] in g.free
    ensures g.bins[k] in Detach(g, k, j).used && Detach(g, k, j).extent == g.extent
  {
  }

  /** The block is cut: the header of the remainder was written behind it. */
  lemma TakenSplit(b1: seq<byte>, b2: seq<byte>, g: State, size: nat, k: nat, j: nat)
    requires |g.bins| == BIN_COUNT && k < BIN_COUNT && j < BIN_COUNT && PopBin(g.bins, size) == k
    requires g.bins[k] in g.free && LinkBin(g, g.free[g.bins[k]], j)
    requires g.free[g.bins[k]].FreeComplex? && size <= g.free[g.bins[k]].size
    requires var r := Cut(Detach(g, k, j), g.bins[k], size, g.free[g.bins[k]].size - size);
             KeptOld(b1, b2, g.extent, r.extent)
    requires g.bins[k] in g.extent && FreeAt(b1, g.bins[k], g.free[g.bins[k]])
    ensures var r := Cut(Detach(g, k, j), g.bins[k], size, g.free[g.bins[k]].size - size);
            && Allocated(g, r, size, g.bins[k], k)
            && g.bins[k] in r.extent
            && (COMPLEX_SIZE <= r.extent[g.bins[k]] ==> FreeAt(b2, g.bins[k], g.free[g.bins[k]]))
  {
    hide LinkBin, PopBin, Cut, FreeAt, Allocated;
    AllocateIsCut(g, size, k, j);
    FreeStays(b1, b2, g, Cut(Detach(g, k, j), g.bins[k], size, g.free[g.bins[k]].size - size).extent, g.bins[k]);
  }

  /** An allocation does not move the end, and one that makes the volume grow leaves clusters for the next one. */
  lemma AllocatedLeaves(st: State, g: State, st': State, size: nat, o: nat, k: nat, count: nat)
    requires Sound(st) && GrownFrom(st, g, count) && Allocated(g, st', size, o, k) && count != 1
    requires count > 0 ==> |st.bins| == BIN_COUNT && PopBin(st.bins, size) < 0
    ensures st'.end == g.end && |st'.bins| == BIN_COUNT
    ensures count > 0 ==> st'.bins[10] != 0
  {
    hide Sound, PopBin, Clusters;
    if count > 0 {
      SoundBasics(st);
      GrowthServes(st.bins, size, st.end + CLUSTER_SIZE * (count - 1));
      ClustersEnd(st, count);
      ClustersNew(st, count, count - 1);
      ClustersNew(st, count, count - 2);
    }
  }

  lemma AllocateIsCut(g: State, size: nat, k: nat, j: nat)
    requires |g.bins| == BIN_COUNT && k < BIN_COUNT && j < BIN_COUNT && PopBin(g.bins, size) == k
    requires g.bins[k] in g.free && LinkBin(g, g.free[g.bins[k]], j)
    requires g.free[g.bins[k]].FreeComplex? && size <= g.free[g.bins[k]].size
    ensures Allocated(g, Cut(Detach(g, k, j), g.bins[k], size, g.free[g.bins[k]].size - size), size, g.bins[k], k)
  {
    hide LinkBin, PopBin, Cut;
    assert Cut(Detach(g, k, j), g.bins[k], size, g.free[g.bins[k]].size - size) == Allocate(g, k, j, size);
  }

  /** A free block that kept its header is still described by it. */
  lemma FreeStays(b1: seq<byte>, b2: seq<byte>, g: State, extent: map<nat, nat>, o: nat)
    requires o in g.free && o in g.extent && KeptOld(b1, b2, g.extent, extent) && FreeAt(b1, o, g.free[o])
    ensures o in extent && (HeaderSize(g.free[o]) <= extent[o] ==> FreeAt(b2, o, g.free[o]))
  {
    hide FreeAt, SameBlock;
    if HeaderSize(g.free[o]) <= extent[o] {
      FreeSame(b1, b2, o, extent[o], g.free[o]);
    }
  }

  lemma FreeSame(b1: seq<byte>, b2: seq<byte>, o: nat, size: nat, f: Free)
    requires FreeAt(b1, o, f) && SameBlock(b1, b2, o, size) && HeaderSize(f) <= size
    ensures FreeAt(b2, o, f)
  {
    SameShorter(b1, b2, o, size, HeaderSize(f));
  }

  lemma KeptOldTrans(b0: seq<byte>, b1: seq<byte>, b2: seq<byte>,
                     e0: map<nat, nat>, e1: map<nat, nat>, e2: map<nat, nat>)
    requires KeptOld(b0, b1, e0, e1) && KeptOld(b1, b2, e1, e2)
    ensures KeptOld(b0, b2, e0, e2)
  {
    forall o | o in e0
      ensures o in e2 && e2[o] <= e0[o] && SameBlock(b0, b2, o, e2[o])
    {
      SameShorter(b0, b1, o, e1[o], e2[o]);
    }
  }

  lemma SplitFits(bytes: seq<byte>, st: State, o: nat)
    requires Sound(st) && Holds(bytes, st) && o in st.extent
    ensures |st.bins| == BIN_COUNT && o + st.extent[o] <= |bytes| == st.end
    ensures |bytes| < U64 ==> forall i | 0 <= i < BIN_COUNT :: st.bins[i] < U64
  {
  }

  lemma CutStep(bytes: seq<byte>, st: State, o: nat, entry: nat, size: nat, image: seq<byte>)
    requires Sound(st) && Holds(bytes, st) && o in st.used && o in st.extent && 0 < entry && |st.bins| == BIN_COUNT
    requires entry + size + COMPLEX_DATA <= st.extent[o]
    requires size >= SIMPLE4_SIZE ==> o + entry <= |bytes|
    requires size >= SIMPLE4_SIZE ==>
               |image| == HeaderSize(Remainder(st.bins, size)) && FreeImage(image, Remainder(st.bins, size))
    ensures var r := Cut(st, o, entry, size);
            var bytes' := if size >= SIMPLE4_SIZE then Splice(bytes, o + entry, image) else bytes;
            && Sound(r) && Holds(bytes', r) && r.end == st.end
            && r.bins == (if size >= SIMPLE4_SIZE then st.bins[BinId(size) := o + entry] else st.bins)
            && KeptOld(bytes, bytes', st.extent, r.extent)
            && (CutsBlank(bytes, st, o + entry, size, image) ==> Blank(bytes', r))
  {
    hide Sound, Splice, Kept, Blank, BlankBehind, UnpackComplex;
    if CutsBlank(bytes, st, o + entry, size, image) && SIMPLE4_SIZE <= size {
      BlankCut(bytes, st, o, entry, size, image);
    }
    CutSound(st, o, entry, size);
    CutKeeps(st, o, entry, size);
    if size >= SIMPLE4_SIZE {
      HoldsCut(bytes, st, o, entry, size, image);
      CutKeptOld(bytes, Splice(bytes, o + entry, image), st, o, entry, size);
    } else {
      KeptSame(bytes, st);
      SameKeptOld(bytes, bytes, st.extent);
    }
  }

  lemma CutKeptOld(bytes: seq<byte>, bytes': seq<byte>, st: State, o: nat, entry: nat, size: nat)
    requires |st.bins| == BIN_COUNT && size >= SIMPLE4_SIZE && Sound(st) && o in st.extent && 0 < entry < st.extent[o]
    requires Kept(bytes, bytes', st.extent[o := entry])
    ensures KeptOld(bytes, bytes', st.extent, Cut(st, o, entry, size).extent)
  {
    var e := st.extent[o := entry];
    BehindIsFresh(st, o, entry);
    hide Sound, SameBlock;
    forall p | p in st.extent
      ensures SameBlock(bytes, bytes', p, e[p])
    {
      assert p in e;
    }
  }

  lemma SameKeptOld(bytes: seq<byte>, bytes': seq<byte>, extent: map<nat, nat>)
    requires Kept(bytes, bytes', extent)
    ensures KeptOld(bytes, bytes', extent, extent)
  {
  }

  lemma BlankTaken(bytes: seq<byte>, g: State, k: nat, j: nat)
    requires |g.bins| == BIN_COUNT && k < BIN_COUNT && j < BIN_COUNT && g.bins[k] != 0 && g.bins[k] in g.free
    requires LinkBin(g, g.free[g.bins[k]], j)
    ensures Lone(g) && Blank(bytes, g) ==> Blank(bytes, Detach(g, k, j))
  {
    hide Lone, Blank, LinkBin, Detach;
    if Lone(g) && Blank(bytes, g) {
      BlankDetach(bytes, g, k, j);
    }
  }

  /** What a small remainder of a small block has where its chunk size would be: the end of a blank header. */
  lemma BlankRest(bytes: seq<byte>, g: State, k: nat, entry: nat)
    requires k < BIN_COUNT == |g.bins| && g.bins[k] != 0 && g.bins[k] in g.free && g.free[g.bins[k]].FreeComplex?
    requires FreeAt(bytes, g.bins[k], g.free[g.bins[k]]) && entry <= g.free[g.bins[k]].size
    ensures Lone(g) && Blank(bytes, g) && (entry == SIMPLE4_SIZE || entry == SIMPLE8_SIZE) ==>
              BlankBehind(bytes, g.bins[k] + entry, g.free[g.bins[k]].size - entry)
  {
    hide UnpackComplex;
    if Lone(g) && Blank(bytes, g) && (entry == SIMPLE4_SIZE || entry == SIMPLE8_SIZE)
       && g.free[g.bins[k]].size - entry <= COMPLEX_SIZE {
      FreeHeader(bytes, g.bins[k], g.free[g.bins[k]]);
      assert BlankAt(bytes, g.bins[k]);
      HeaderEndsBlank(bytes, g.bins[k]);
    }
  }

  lemma ClustersBlank(bytes: seq<byte>, start: nat, count: nat, free: nat)
    requires ClustersFrom(bytes, start, count, free)
    ensures forall i: nat | i < count :: BlankAt(bytes, start + CLUSTER_SIZE * i)
  {
    forall i: nat | i < count
      ensures BlankAt(bytes, start + CLUSTER_SIZE * i)
    {
      assert ClusterFrom(bytes, start, i, free);
    }
  }

  /** What the header of the block that was popped says. */
  lemma HeadOnDevice(bytes: seq<byte>, st: State, k: nat)
    requires Sound(st) && Holds(bytes, st) && k < BIN_COUNT
    requires k < |st.bins| && st.bins[k] != 0 && st.bins[k] in st.free
    ensures |st.bins| == BIN_COUNT
    ensures var o, f := st.bins[k], st.free[st.bins[k]];
            && o + HeaderSize(f) <= |bytes|
            && (!f.FreeComplex? ==> UnpackSimple(bytes[o..o + HeaderSize(f)]).NextFree() == f.next)
            && (f.FreeComplex? ==> UnpackComplex(bytes[o..o + COMPLEX_SIZE]).next == f.next
                                   && (f.next != 0 ==> f.next + COMPLEX_SIZE <= |bytes|))
  {
    var o := st.bins[k];
    FreeHeader(bytes, o, st.free[o]);
    if st.free[o].FreeComplex? {
      LinkInRange(bytes, st, o);
    }
  }

  lemma DetachStep(bytes: seq<byte>, st: State, k: nat, j: nat)
    requires Sound(st) && Holds(bytes, st) && k < BIN_COUNT && j < BIN_COUNT && |st.bins| == BIN_COUNT
    requires st.bins[k] != 0 && st.bins[k] in st.free && LinkBin(st, st.free[st.bins[k]], j)
    ensures Sound(Detach(st, k, j)) && Holds(bytes, Detach(st, k, j))
    ensures Detach(st, k, j).end == st.end
    ensures var next := st.free[st.bins[k]].next;
            Detach(st, k, j).bins == if next == 0 then st.bins[k := 0] else st.bins[k := 0][j := next]
  {
    hide Sound;
    DetachSound(st, k, j);
  }

  // ------------------------------------------------------------ dates of long values

  /** The expiry date in the first header of a long value. */
  function LongDate(bytes: seq<byte>, o: nat): Option<Time>
    requires o + COMPLEX_SIZE <= |bytes|
  {
    var h := UnpackComplex(bytes[o..o + COMPLEX_SIZE]);
    if HasExpiry(h.state) then Some(Time(h.high, h.low)) else None
  }

  /** Writing a date into the first header of a long value: it takes the place of the mark of a beginning. */
  lemma LongDated(bytes: seq<byte>, st: State, blocks: seq<nat>, data: seq<byte>, spare: nat, kind: byte, expired: Time)
    requires Sound(st) && Holds(bytes, st) && LongAt(bytes, st, blocks, data, spare, kind)
    requires expired.Valid() && blocks != [] && (kind == STRING || kind == BLOB)
    ensures var o := blocks[0];
            && o + COMPLEX_SIZE <= |bytes|
            && var h := UnpackComplex(bytes[o..o + COMPLEX_SIZE]).(state := IS_EXPIRED, high := expired.high,
                                                                   low := expired.low);
            && var bytes' := Splice(bytes, o, h.Pack());
            && |bytes'| == |bytes| && Holds(bytes', st) && Kept(bytes, bytes', st.extent - {o})
            && LongDate(bytes', o) == Some(expired)
            && Readable(bytes', o, data) && Content(bytes', o, data) == Err(CorruptedHeaderError)
  {
    hide Sound, Holds, LongAt, Kept, UnpackComplex, Splice, ComplexHeader.Pack, HoldsLive, HoldsFree;
    var o := blocks[0];
    LongChunk(bytes, st, blocks, data, spare, kind, 0);
    SoundParts(bytes, st);
    InOtherUse(st, o);
    var h := UnpackComplex(bytes[o..o + COMPLEX_SIZE]).(state := IS_EXPIRED, high := expired.high, low := expired.low);
    var bytes' := Splice(bytes, o, h.Pack());
    WriteInBlock(bytes, st, o, o, h.Pack());
    UnpackPackComplex(h);
    KindStays(bytes, o, h);
    HoldsOther(bytes, bytes', st, o);
  }

  lemma KindStays(bytes: seq<byte>, o: nat, h: ComplexHeader)
    requires o + COMPLEX_SIZE <= |bytes|
    ensures |Splice(bytes, o, h.Pack())| == |bytes| && Splice(bytes, o, h.Pack())[o] == h.kind
    ensures UnpackComplex(bytes[o..o + COMPLEX_SIZE]).kind == bytes[o]
  {
  }

  /** A block in other use may hold anything. */
  lemma HoldsOther(bytes: seq<byte>, bytes': seq<byte>, st: State, o: nat)
    requires Holds(bytes, st) && |bytes'| == |bytes| && o !in st.live && o !in st.free
    requires HoldsLive(bytes', st.live - {o}) && HoldsFree(bytes', st.free - {o})
    ensures Holds(bytes', st)
  {
    assert st.live - {o} == st.live && st.free - {o} == st.free;
  }

  /** What a reader finds in the header of a free block. */
  lemma FreeHeader(bytes: seq<byte>, o: nat, f: Free)
    requires FreeAt(bytes, o, f)
    ensures o + HeaderSize(f) <= |bytes|
    ensures bytes[o] == if f.Free4? then EMPTY4 else if f.Free8? then EMPTY8 else EMPTY_COMPLEX
    ensures !f.FreeComplex? ==> UnpackSimple(bytes[o..o + HeaderSize(f)]).NextFree() == f.next
    ensures f.FreeComplex? ==>
              var h := UnpackComplex(bytes[o..o + COMPLEX_SIZE]);
              h.next == f.next && h.overall == h.chunk == f.size
  {
    assert bytes[o] == bytes[o..o + HeaderSize(f)][0];
  }

  /** The header of the successor of a complex block lies on the device, whatever kind of block it is. */
  lemma LinkInRange(bytes: seq<byte>, st: State, o: nat)
    requires Sound(st) && Holds(bytes, st) && o in st.free && st.free[o].FreeComplex?
    ensures st.free[o].next != 0 ==> st.free[o].next + COMPLEX_SIZE <= |bytes|
  {
    assert LinkFree(st.free, st.extent, o);
  }

  lemma LinkBinOf(bytes: seq<byte>, st: State, o: nat, j: nat)
    requires Sound(st) && Holds(bytes, st) && o in st.free && st.free[o].FreeComplex? && j < BIN_COUNT
    requires var next := st.free[o].next;
             (next != 0 ==>
                next + COMPLEX_SIZE <= |bytes|
                && j == BinId((UnpackComplex(bytes[next..next + COMPLEX_SIZE]).overall + COMPLEX_DATA) % U64))
    ensures LinkBin(st, st.free[o], j)
  {
    hide Sound, Holds, FreeAt, BinId;
    var next := st.free[o].next;
    if next in st.free && st.free[next].FreeComplex? {
      FreeOnDevice(bytes, st, next);
      FreeHeader(bytes, next, st.free[next]);
    }
  }

  lemma FreeOnDevice(bytes: seq<byte>, st: State, o: nat)
    requires Sound(st) && Holds(bytes, st) && o in st.free
    ensures DATA_START <= o && o in st.extent && FreeSized(st.free[o], st.extent[o]) && FreeAt(bytes, o, st.free[o])
    ensures st.extent[o] <= CLUSTER_SIZE
  {
  }

  lemma EndOf(bytes: seq<byte>, st: State)
    requires Holds(bytes, st)
    ensures |bytes| == st.end
  {
  }

  lemma KeptSame(bytes: seq<byte>, st: State)
    requires Sound(st) && Holds(bytes, st)
    ensures Kept(bytes, bytes, st.extent)
    ensures |st.bins| == BIN_COUNT
  {
  }

  lemma SoundBasics(st: State)
    requires Sound(st)
    ensures |st.bins| == BIN_COUNT && DATA_START <= st.end
  {
  }

  /** The state after clusters have been appended. */
  lemma GrowthStep(bytes: seq<byte>, bytes': seq<byte>, st: State, count: nat)
    requires Sound(st) && Holds(bytes, st) && |bytes'| == st.end + CLUSTER_SIZE * count
    requires |bytes| == st.end && bytes'[..st.end] == bytes && ClustersFrom(bytes', st.end, count, 0)
    ensures Kept(bytes, bytes', st.extent)
    ensures count > 0 ==> LinkFrom(0, st.end, count) == st.end + CLUSTER_SIZE * (count - 1)
    ensures Blank(bytes, st) ==> Blank(bytes', Clusters(st, count))
    ensures var p := Clusters(st, count);
            Sound(p) && Holds(bytes', p) && p.end == |bytes'| && p.bins == st.bins
  {
    hide Sound, Kept, Clusters, ClustersAt, ClustersFrom, Blank, BlankAt;
    FromNone(bytes', st.end, count);
    HoldsClusters(bytes, bytes', st, count);
    ClustersEnd(st, count);
    ClustersSound(st, count);
    if Blank(bytes, st) {
      ClustersBlank(bytes', st.end, count, 0);
      BlankGrown(bytes, bytes', st, count);
    }
  }

  /** Making the last of them the head of the cluster class. */
  lemma GrownStep(bytes: seq<byte>, st: State, count: nat)
    requires Sound(st) && |st.bins| == BIN_COUNT && count > 0 && Holds(bytes, Clusters(st, count))
    ensures var g := Grown(st, count);
            && Sound(g) && Holds(bytes, g) && g.end == Clusters(st, count).end
            && g.bins == st.bins[BinId(CLUSTER_SIZE) := st.end + CLUSTER_SIZE * (count - 1)]
            && |g.bins| == BIN_COUNT && g.bins[10] != 0 && Clusters(st, count).bins == st.bins
  {
    SoundBasics(st);
    ClustersEnd(st, count);
    GrownSound(st, count);
  }

}
