/** The start of a volume: the volume header, and behind it the heads of the free lists. */
module VolumeHeader {
  import opened Bytes
  import opened Layout
  import opened Blocks
  import opened Image
  import opened Values
  import opened Versions

  /** "YAS_PV" */
  const SIGNATURE: seq<byte> := [0x59, 0x41, 0x53, 0x5F, 0x50, 0x56]
  const I31: int := 0x8000_0000

  /** A signed 32-bit number as it is stored. */
  function Unsigned32(i: int): nat {
    if 0 <= i < I31 then i else if -I31 <= i < 0 then i + U32 else 0
  }

  datatype PVHeader = PVHeader(signature: seq<byte>, version: Version, pvSize: nat, clusterSize: int, priority: int,
                               indexOffset: nat, binsCount: int)
  {
    predicate Fits() {
      && |signature| == 6 && pvSize < U64 && indexOffset < U64
      && -I31 <= clusterSize < I31 && -I31 <= priority < I31 && -I31 <= binsCount < I31
    }

    function Pack(): (s: seq<byte>)
      requires |signature| == 6
      ensures |s| == PV_HEADER_SIZE
    { PackStart() + PackRest() }

    function PackStart(): (s: seq<byte>)
      requires |signature| == 6
      ensures |s| == 16
    { signature + [version.major, version.minor] + Encode(8, pvSize) }

    function PackRest(): (s: seq<byte>)
      ensures |s| == 20
    {
      Encode(4, Unsigned32(clusterSize)) + Encode(4, Unsigned32(priority)) + Encode(8, indexOffset)
      + Encode(4, Unsigned32(binsCount))
    }
  }

  function UnpackPV(s: seq<byte>): (h: PVHeader)
    requires |s| == PV_HEADER_SIZE
    ensures h.Fits()
  {
    WordRanges();
    PVHeader(s[..6], Version(s[6], s[7]), Decode(s[8..16]), AsSigned(Decode(s[16..20]), U32),
             AsSigned(Decode(s[20..24]), U32), Decode(s[24..32]), AsSigned(Decode(s[32..36]), U32))
  }

  lemma SignedRoundTrip(i: int)
    requires -I31 <= i < I31
    ensures AsSigned(Decode(Encode(4, Unsigned32(i))), U32) == i
  {
    WordRanges();
    DecodeEncode(4, Unsigned32(i));
  }

  lemma UnpackPackPV(h: PVHeader)
    requires h.Fits()
    ensures UnpackPV(h.Pack()) == h
  {
    WordRanges();
    DecodeEncode(8, h.pvSize);
    DecodeEncode(8, h.indexOffset);
    SignedRoundTrip(h.clusterSize);
    SignedRoundTrip(h.priority);
    SignedRoundTrip(h.binsCount);
    hide Encode, Decode, AsSigned, Unsigned32, PVHeader.PackStart, PVHeader.PackRest;
    StartParts(h);
    RestParts(h);
    var a, b := h.PackStart(), h.PackRest();
    SliceLeft(a, b, 0, 6);
    SliceLeft(a, b, 8, 16);
    SliceRight(a, b, 0, 4);
    SliceRight(a, b, 4, 8);
    SliceRight(a, b, 8, 16);
    SliceRight(a, b, 16, 20);
    assert h.Pack()[..6] == h.Pack()[0..6];
  }

  lemma StartParts(h: PVHeader)
    requires |h.signature| == 6
    ensures var s := h.PackStart();
            && s[0..6] == h.signature && s[6] == h.version.major && s[7] == h.version.minor
            && s[8..16] == Encode(8, h.pvSize)
  {
  }

  lemma RestParts(h: PVHeader)
    ensures var s := h.PackRest();
            && s[0..4] == Encode(4, Unsigned32(h.clusterSize)) && s[4..8] == Encode(4, Unsigned32(h.priority))
            && s[8..16] == Encode(8, h.indexOffset) && s[16..20] == Encode(4, Unsigned32(h.binsCount))
  {
    hide Encode, Unsigned32;
    var a, b := Encode(4, Unsigned32(h.clusterSize)), Encode(4, Unsigned32(h.priority));
    var c, d := Encode(8, h.indexOffset), Encode(4, Unsigned32(h.binsCount));
    var s := a + b + c + d;
    assert s[0..4] == a && s[4..8] == b;
    assert s[8..16] == c && s[16..20] == d;
  }

  function UnpackBins(s: seq<byte>): (bins: seq<nat>)
    requires |s| == FREELIST_SIZE
    ensures |bins| == BIN_COUNT
  { seq(BIN_COUNT, i requires 0 <= i < BIN_COUNT => Decode(s[8 * i..8 * i + 8])) }

  lemma UnpackPackBins(bins: seq<nat>)
    requires |bins| == BIN_COUNT && forall i | 0 <= i < BIN_COUNT :: bins[i] < U64
    ensures UnpackBins(Words(bins)) == bins
  {
    forall i | 0 <= i < BIN_COUNT
      ensures UnpackBins(Words(bins))[i] == bins[i]
    {
      WordsAt(bins, i);
    }
  }

  /** The bytes in front of the blocks. */
  function StartBytes(h: PVHeader, bins: seq<nat>): (s: seq<byte>)
    requires |h.signature| == 6 && |bins| == BIN_COUNT
    ensures |s| == DATA_START
  { h.Pack() + Words(bins) }

  /** Where the fields of the start of a volume lie. */
  lemma StartBytesAre(h: PVHeader, bins: seq<nat>, i: nat)
    requires h.Fits() && |bins| == BIN_COUNT && i < BIN_COUNT && bins[i] < U64
    ensures var s := StartBytes(h, bins);
            && s[0..6] == h.signature && s[6] == h.version.major && s[7] == h.version.minor
            && Decode(s[8..16]) == h.pvSize && AsSigned(Decode(s[16..20]), U32) == h.clusterSize
            && AsSigned(Decode(s[20..24]), U32) == h.priority && Decode(s[24..32]) == h.indexOffset
            && AsSigned(Decode(s[32..36]), U32) == h.binsCount && Decode(s[36 + 8 * i..44 + 8 * i]) == bins[i]
  {
    UnpackPackPV(h);
    WordsAt(bins, i);
    hide Decode, AsSigned, PVHeader.Pack, Words;
    var s := StartBytes(h, bins);
    assert s[..36] == h.Pack() && s[36..] == Words(bins);
    SliceOfSlice(s, 0, 36, 0, 6);
    SliceOfSlice(s, 0, 36, 8, 16);
    SliceOfSlice(s, 0, 36, 16, 20);
    SliceOfSlice(s, 0, 36, 20, 24);
    SliceOfSlice(s, 0, 36, 24, 32);
    SliceOfSlice(s, 0, 36, 32, 36);
    SliceOfSlice(s, 36, DATA_START, 8 * i, 8 * i + 8);
    assert s[0..36] == s[..36] && s[36..DATA_START] == s[36..];
    assert h.Pack()[0..6] == h.Pack()[..6];
  }

  /** Writing the header and then the list heads, on an empty device or over the start of a volume. */
  lemma StartWritten(bytes: seq<byte>, h: PVHeader, bins: seq<nat>)
    requires |h.signature| == 6 && |bins| == BIN_COUNT && (bytes == [] || DATA_START <= |bytes|)
    ensures PV_HEADER_SIZE <= |Splice(bytes, 0, h.Pack())|
    ensures var r := Splice(Splice(bytes, 0, h.Pack()), PV_HEADER_SIZE, Words(bins));
            && |r| == (if bytes == [] then DATA_START else |bytes|)
            && r[..DATA_START] == StartBytes(h, bins)
            && (bytes != [] ==> r[DATA_START..] == bytes[DATA_START..])
  {
    hide Words;
  }

  /** Does the device hold this volume, closed with this header? */
  ghost predicate Closed(bytes: seq<byte>, st: State, h: PVHeader) {
    && Sound(st) && Holds(bytes, st) && h.Fits() && h.signature == SIGNATURE && h.pvSize == st.end && |st.bins| == BIN_COUNT
    && st.end < U64 && h.clusterSize == CLUSTER_SIZE && DATA_START <= |bytes|
    && bytes[..DATA_START] == StartBytes(h, st.bins)
  }

  /** Does a manager that supports `version` accept the start of the volume? */
  predicate Accepted(bytes: seq<byte>, version: Version) {
    && DATA_START <= |bytes|
    && var h := UnpackPV(bytes[0..PV_HEADER_SIZE]);
    && h.signature == SIGNATURE && h.version.Number() <= version.Number() && h.indexOffset != 0
  }

  /** What a reader finds at the start of a closed volume. */
  lemma ClosedStart(bytes: seq<byte>, st: State, h: PVHeader)
    requires Closed(bytes, st, h)
    ensures DATA_START <= |bytes| && UnpackPV(bytes[0..PV_HEADER_SIZE]) == h
    ensures UnpackBins(bytes[PV_HEADER_SIZE..DATA_START]) == st.bins
  {
    BinsFit(bytes, st);
    hide Sound, Holds;
    UnpackPackPV(h);
    UnpackPackBins(st.bins);
    assert bytes[0..PV_HEADER_SIZE] == bytes[..DATA_START][..PV_HEADER_SIZE] == h.Pack();
    assert bytes[PV_HEADER_SIZE..DATA_START] == bytes[..DATA_START][PV_HEADER_SIZE..] == Words(st.bins);
  }

  lemma BinsFit(bytes: seq<byte>, st: State)
    requires Sound(st) && Holds(bytes, st) && |bytes| < U64
    ensures |st.bins| == BIN_COUNT && (forall i | 0 <= i < BIN_COUNT :: st.bins[i] < U64)
    ensures DATA_START <= |bytes| == st.end
  {
  }

  /** The blocks do not notice what is written in front of them. */
  lemma HoldsBehind(bytes: seq<byte>, bytes': seq<byte>, st: State)
    requires Sound(st) && Holds(bytes, st) && |bytes'| == |bytes| && DATA_START <= |bytes|
    requires bytes'[DATA_START..] == bytes[DATA_START..]
    ensures Holds(bytes', st) && Kept(bytes, bytes', st.extent)
  {
    KeptBehind(bytes, bytes', st.extent);
    hide FreeAt, LiveAt;
    RestHolds(bytes, bytes', st);
  }

  lemma KeptBehind(bytes: seq<byte>, bytes': seq<byte>, extent: map<nat, nat>)
    requires Tiled(extent, |bytes|) && |bytes'| == |bytes| && DATA_START <= |bytes|
    requires bytes'[DATA_START..] == bytes[DATA_START..]
    ensures Kept(bytes, bytes', extent)
  {
    forall o | o in extent
      ensures SameBlock(bytes, bytes', o, extent[o])
    {
      var from, to := o - DATA_START, o + extent[o] - DATA_START;
      assert bytes'[o..o + extent[o]] == bytes'[DATA_START..][from..to];
      assert bytes[o..o + extent[o]] == bytes[DATA_START..][from..to];
    }
  }
}
