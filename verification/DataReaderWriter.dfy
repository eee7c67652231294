/** Reads and writes packed headers, and complex values as chains of chunks. */
module DataReaderWriter {
  import opened Bytes
  import opened Errors
  import opened Layout
  import opened Device

  // ------------------------------------------------------- what a chain looks like

  /** Block `o` carries `piece` as a chunk of a value of which `overall` bytes remain, and continues at `sequel`. */
  ghost predicate ChunkAt(bytes: seq<byte>, o: nat, first: bool, overall: nat, piece: seq<byte>, sequel: nat) {
    && o + COMPLEX_SIZE <= |bytes| && o + COMPLEX_DATA + |piece| <= |bytes|
    && var h := UnpackComplex(bytes[o..o + COMPLEX_SIZE]);
    && (if first then IsBegin(h.state) else IsSequel(h.state))
    && h.overall == overall && h.chunk == |piece| && h.sequel == sequel
    && |piece| <= CLUSTER_SIZE
    && bytes[o + COMPLEX_DATA..o + COMPLEX_DATA + |piece|] == piece
  }

  /** The chunk size stored in the header of block `o`, and where that header says the value continues. */
  function ChunkSize(bytes: seq<byte>, o: nat): nat
    requires o + COMPLEX_SIZE <= |bytes|
  { UnpackComplex(bytes[o..o + COMPLEX_SIZE]).chunk }

  function Sequel(bytes: seq<byte>, o: nat): nat
    requires o + COMPLEX_SIZE <= |bytes|
  { UnpackComplex(bytes[o..o + COMPLEX_SIZE]).sequel }

  /** The chain of chunks that starts at `o` and goes on for at most `hops` more chunks spells `data`. */
  ghost predicate ChainIn(bytes: seq<byte>, o: nat, data: seq<byte>, first: bool, hops: nat)
    decreases hops
  {
    && o + COMPLEX_SIZE <= |bytes|
    && var n := ChunkSize(bytes, o);
    && n <= |data|
    && ChunkAt(bytes, o, first, |data|, data[..n], Sequel(bytes, o))
    && (n < |data| ==> hops > 0 && ChainIn(bytes, Sequel(bytes, o), data[n..], false, hops - 1))
  }

  /** The chain of chunks that starts at `o` spells `data`. A chunk may be empty. */
  ghost predicate ChainAt(bytes: seq<byte>, o: nat, data: seq<byte>, first: bool) {
    exists hops: nat :: ChainIn(bytes, o, data, first, hops)
  }

  /** Does the header at `o` say that a value begins there? */
  predicate BeginsAt(bytes: seq<byte>, o: nat)
    requires o + COMPLEX_SIZE <= |bytes|
  { IsBegin(UnpackComplex(bytes[o..o + COMPLEX_SIZE]).state) }

  /** Where the parts of a chunk lie. */
  lemma ChunkBytes(bytes: seq<byte>, o: nat, first: bool, overall: nat, piece: seq<byte>, sequel: nat)
    requires ChunkAt(bytes, o, first, overall, piece, sequel)
    ensures o + 40 <= |bytes| && o + 32 + |piece| <= |bytes|
    ensures if first then bytes[o + 1] / 2 % 2 == 1 else bytes[o + 1] / 4 % 2 == 1
    ensures Decode(bytes[o + 8..o + 16]) == overall && Decode(bytes[o + 16..o + 24]) == |piece|
    ensures Decode(bytes[o + 24..o + 32]) == sequel && bytes[o + 32..o + 32 + |piece|] == piece
  {
    hide UnpackComplex;
    ComplexFields(bytes, o);
  }

  /** The fields of a complex header, by their places on the device. */
  lemma ComplexFields(bytes: seq<byte>, o: nat)
    requires o + COMPLEX_SIZE <= |bytes|
    ensures UnpackComplex(bytes[o..o + COMPLEX_SIZE])
            == ComplexHeader(bytes[o], bytes[o + 1], Decode(bytes[o + 2..o + 4]), Decode(bytes[o + 4..o + 8]),
                             Decode(bytes[o + 8..o + 16]), Decode(bytes[o + 16..o + 24]), Decode(bytes[o + 24..o + 32]),
                             Decode(bytes[o + 32..o + 40]))
  {
    hide Decode;
    SliceOfSlice(bytes, o, o + 40, 2, 4);
    SliceOfSlice(bytes, o, o + 40, 4, 8);
    SliceOfSlice(bytes, o, o + 40, 8, 16);
    SliceOfSlice(bytes, o, o + 40, 16, 24);
    SliceOfSlice(bytes, o, o + 40, 24, 32);
    SliceOfSlice(bytes, o, o + 40, 32, 40);
  }

  /** Where a chain starts, a value begins. */
  lemma StartsOnDevice(bytes: seq<byte>, o: nat, data: seq<byte>)
    requires ChainAt(bytes, o, data, true)
    ensures o + COMPLEX_SIZE <= |bytes| && BeginsAt(bytes, o)
  {
    var hops: nat :| ChainIn(bytes, o, data, true, hops);
  }

  /** What the reader finds in the header and the data area of the next chunk. */
  lemma ChainHead(bytes: seq<byte>, o: nat, data: seq<byte>, first: bool, hops: nat)
    requires ChainIn(bytes, o, data, first, hops)
    ensures o + COMPLEX_SIZE <= |bytes|
    ensures var h := UnpackComplex(bytes[o..o + COMPLEX_SIZE]);
            && (if first then IsBegin(h.state) else IsSequel(h.state))
            && h.overall == |data| && h.chunk <= |data| && h.chunk <= CLUSTER_SIZE
            && o + COMPLEX_DATA + h.chunk <= |bytes|
            && bytes[o + COMPLEX_DATA..o + COMPLEX_DATA + h.chunk] == data[..h.chunk]
            && (h.chunk < |data| ==> hops > 0 && ChainIn(bytes, h.sequel, data[h.chunk..], false, hops - 1))
  {
  }

  /** A chain determines the value it spells. */
  lemma ChainSpellsOne(bytes: seq<byte>, o: nat, d1: seq<byte>, d2: seq<byte>, first: bool)
    requires ChainAt(bytes, o, d1, first) && ChainAt(bytes, o, d2, first)
    ensures d1 == d2
  {
    var h1: nat :| ChainIn(bytes, o, d1, first, h1);
    var h2: nat :| ChainIn(bytes, o, d2, first, h2);
    ChainInSpellsOne(bytes, o, d1, h1, d2, h2, first);
  }

  lemma {:induction false} ChainInSpellsOne(bytes: seq<byte>, o: nat, d1: seq<byte>, h1: nat, d2: seq<byte>, h2: nat,
                                            first: bool)
    requires ChainIn(bytes, o, d1, first, h1) && ChainIn(bytes, o, d2, first, h2)
    ensures d1 == d2
    decreases h1
  {
    var n := ChunkSize(bytes, o);
    assert d1 == d1[..n] + d1[n..] && d2 == d2[..n] + d2[n..];
    if n < |d1| {
      ChainInSpellsOne(bytes, Sequel(bytes, o), d1[n..], h1 - 1, d2[n..], h2 - 1, false);
    }
  }

  // ---------------------------------------------------------------- the operations

  class PVDeviceDataReaderWriter {
    const device: TestDevice
    const clusterSize: nat

    constructor (device: TestDevice, clusterSize: nat)
      ensures this.device == device && this.clusterSize == clusterSize
    {
      this.device := device;
      this.clusterSize := clusterSize;
    }

    /** Reads the packed image of a structure of `size` bytes. */
    method Read(offset: nat, size: nat) returns (r: Result<seq<byte>>)
      ensures r.Ok? <==> offset + size <= |device.storage|
      ensures r.Ok? ==> r.value == device.storage[offset..offset + size]
      ensures r.Err? ==> r.error == DeviceReadError
    {
      r := device.Read(offset, size);
    }

    /** Writes the packed image of a structure. */
    method Write(position: nat, image: seq<byte>) returns (r: Result<nat>)
      requires device.Valid()
      modifies device
      ensures device.Valid()
      ensures r.Ok? <==> position <= old(|device.storage|) && position + |image| <= device.capacity
      ensures r.Ok? ==> device.storage == Splice(old(device.storage), position, image)
      ensures r.Err? ==> device.storage == old(device.storage)
    {
      r := device.Write(position, image);
    }

    /** Appends or overwrites raw bytes and returns how many were written. */
    method RawWrite(offset: nat, data: seq<byte>) returns (r: Result<nat>)
      requires device.Valid()
      modifies device
      ensures device.Valid()
      ensures r.Ok? <==> offset <= old(|device.storage|) && offset + |data| <= device.capacity
      ensures r.Ok? ==> r.value == |data| && device.storage == Splice(old(device.storage), offset, data)
      ensures r.Err? ==> device.storage == old(device.storage)
    {
      r := device.Write(offset, data);
    }

    method CheckComplexTypeHeader(h: ComplexHeader, first: bool) returns (ok: bool)
      ensures ok <==> (if first then IsBegin(h.state) else IsSequel(h.state))
                      && h.chunk <= clusterSize && h.overall <= MAXIMUM_TYPE_SIZE
    {
      if first && !IsBegin(h.state) {
        return false;
      } else if !first && !IsSequel(h.state) {
        return false;
      } else if h.chunk > clusterSize {
        return false;
      } else if h.overall > MAXIMUM_TYPE_SIZE {
        return false;
      }
      return true;
    }

    /**
     * Follows a chain from its first chunk and returns the value, unless it is longer than the format allows. Where no
     * value begins, the header is reported as corrupted.
     */
    method ReadComplexType(start: nat, ghost data: seq<byte>) returns (r: Result<seq<byte>>)
      requires clusterSize == CLUSTER_SIZE && start + COMPLEX_SIZE <= |device.storage|
      requires BeginsAt(device.storage, start) ==> ChainAt(device.storage, start, data, true)
      ensures r == if BeginsAt(device.storage, start) && |data| <= MAXIMUM_TYPE_SIZE then Ok(data)
                   else Err(CorruptedHeaderError)
    {
      hide ChainIn, ChunkAt, UnpackComplex, IsBegin, IsSequel;
      ghost var hops: nat := 0;
      if BeginsAt(device.storage, start) {
        hops :| ChainIn(device.storage, start, data, true, hops);
        ChainHead(device.storage, start, data, true, hops);
      }
      var offset := start;
      var image := Read(offset, COMPLEX_SIZE);
      var header := UnpackComplex(image.value);
      var ok := CheckComplexTypeHeader(header, true);
      if !ok { return Err(CorruptedHeaderError); }

      var overall := header.overall;
      var piece := Read(offset + COMPLEX_DATA, header.chunk);
      var complexData := piece.value;
      ghost var rest := data[header.chunk..];
      hops := if rest == [] then hops else hops - 1;
      while |complexData| < overall
        invariant complexData + rest == data && overall == |data| <= MAXIMUM_TYPE_SIZE
        invariant rest != [] ==> ChainIn(device.storage, header.sequel, rest, false, hops)
        decreases hops + if rest == [] then 0 else 1
      {
        offset := header.sequel;
        ChainHead(device.storage, offset, rest, false, hops);
        image := Read(offset, COMPLEX_SIZE);
        header := UnpackComplex(image.value);
        ok := CheckComplexTypeHeader(header, false);
        if !ok { return Err(CorruptedHeaderError); }

        piece := Read(offset + COMPLEX_DATA, header.chunk);
        complexData := complexData + piece.value;
        rest := rest[header.chunk..];
        hops := if rest == [] then hops else hops - 1;
      }
      assert complexData == complexData + rest == data;
      return Ok(complexData);
    }

    /** Turns the free block at `offset` into a chunk that holds as much of `data` as fits. */
    method WriteComplexType(offset: nat, kind: byte, first: bool, next: nat, data: seq<byte>)
      returns (r: Result<nat>)
      requires device.Valid()
      requires offset + COMPLEX_SIZE <= |device.storage|
      requires offset + COMPLEX_DATA + (if ChunkSize(device.storage, offset) < |data|
                                        then ChunkSize(device.storage, offset) else |data|) <= |device.storage|
      modifies device
      ensures device.Valid()
      ensures r.Ok? && r.value == if ChunkSize(old(device.storage), offset) < |data|
                                  then ChunkSize(old(device.storage), offset) else |data|
      ensures device.storage == ChunkWritten(old(device.storage), offset, kind, first, next, data)
    {
      var image := Read(offset, COMPLEX_SIZE);
      var header := UnpackComplex(image.value);
      var written := if header.chunk < |data| then header.chunk else |data|;
      header := header.(overall := |data|,
                        kind := kind,
                        state := if first then COMPLEX_BEGIN else COMPLEX_SEQUEL,
                        chunk := written,
                        sequel := next);
      var headerWritten := Write(offset, header.Pack());
      var dataWritten := device.Write(offset + COMPLEX_DATA, data[..written]);
      return Ok(written);
    }
  }

  /** The header that a chunk write leaves in front of the data. */
  function ChunkHeader(h: ComplexHeader, kind: byte, first: bool, next: nat, size: nat): ComplexHeader {
    h.(overall := size, kind := kind, state := if first then COMPLEX_BEGIN else COMPLEX_SEQUEL,
       chunk := if h.chunk < size then h.chunk else size, sequel := next)
  }

  /** The device after a chunk write: the new header, then the data over its last word and behind it. */
  function ChunkWritten(bytes: seq<byte>, o: nat, kind: byte, first: bool, next: nat, data: seq<byte>): seq<byte>
    requires o + COMPLEX_SIZE <= |bytes|
  {
    var h := ChunkHeader(UnpackComplex(bytes[o..o + COMPLEX_SIZE]), kind, first, next, |data|);
    Splice(Splice(bytes, o, h.Pack()), o + COMPLEX_DATA, data[..h.chunk])
  }

  /** After a chunk write the block holds the piece as a chunk, and nothing outside it has changed. */
  lemma ChunkIsWritten(bytes: seq<byte>, o: nat, kind: byte, first: bool, next: nat, data: seq<byte>, size: nat)
    requires o + size <= |bytes| < U64 && COMPLEX_SIZE <= size && |data| < U64 && next < U64
    requires var n := ChunkSize(bytes, o);
             var written := if n < |data| then n else |data|;
             COMPLEX_DATA + written <= size && written <= CLUSTER_SIZE
    ensures var n := ChunkSize(bytes, o);
            var written := if n < |data| then n else |data|;
            var bytes' := ChunkWritten(bytes, o, kind, first, next, data);
            && |bytes'| == |bytes|
            && ChunkAt(bytes', o, first, |data|, data[..written], next) && bytes'[o] == kind
            && bytes'[..o] == bytes[..o] && bytes'[o + size..] == bytes[o + size..]
  {
    hide Splice;
    var h := ChunkHeader(UnpackComplex(bytes[o..o + COMPLEX_SIZE]), kind, first, next, |data|);
    var bytes' := ChunkWritten(bytes, o, kind, first, next, data);
    TwoWrites(bytes, o, h.Pack(), data[..h.chunk], size);
    UnpackPackComplex(h);
    SameFields(h.Pack(), bytes'[o..o + COMPLEX_SIZE]);
    assert bytes'[o] == bytes'[o..o + COMPLEX_SIZE][0];
  }

  /** A header image, then data over its last word and behind it. */
  lemma TwoWrites(bytes: seq<byte>, o: nat, image: seq<byte>, piece: seq<byte>, size: nat)
    requires |image| == COMPLEX_SIZE && o + size <= |bytes| && COMPLEX_SIZE <= size && COMPLEX_DATA + |piece| <= size
    ensures |Splice(bytes, o, image)| == |bytes|
    ensures var r := Splice(Splice(bytes, o, image), o + COMPLEX_DATA, piece);
            && |r| == |bytes| && r[..o] == bytes[..o] && r[o + size..] == bytes[o + size..]
            && r[o..o + COMPLEX_SIZE][..COMPLEX_DATA] == image[..COMPLEX_DATA]
            && r[o + COMPLEX_DATA..o + COMPLEX_DATA + |piece|] == piece
  {
    var b := Splice(bytes, o, image);
    var r := Splice(b, o + COMPLEX_DATA, piece);
    assert b[..o] == bytes[..o] && b[o + size..] == bytes[o + size..];
    assert r[..o] == b[..o];
    assert r[o + size..] == b[o + size..];
    SpliceAt(bytes, o, image);
    SpliceAt(b, o + COMPLEX_DATA, piece);
    SpliceElsewhere(b, o + COMPLEX_DATA, piece, o, o + COMPLEX_DATA);
    assert r[o..o + COMPLEX_SIZE][..COMPLEX_DATA] == r[o..o + COMPLEX_DATA];
    assert b[o..o + COMPLEX_SIZE][..COMPLEX_DATA] == b[o..o + COMPLEX_DATA];
  }

  /** Header images that agree up to the data area differ at most in their last word. */
  lemma SameFields(s1: seq<byte>, s2: seq<byte>)
    requires |s1| == |s2| == COMPLEX_SIZE && s1[..COMPLEX_DATA] == s2[..COMPLEX_DATA]
    ensures UnpackComplex(s2) == UnpackComplex(s1).(next := UnpackComplex(s2).next)
  {
    assert s1[..32][0] == s1[0] && s2[..32][0] == s2[0] && s1[..32][1] == s1[1] && s2[..32][1] == s2[1];
    SameField(s1, s2, 2, 4);
    SameField(s1, s2, 4, 8);
    SameField(s1, s2, 8, 16);
    SameField(s1, s2, 16, 24);
    SameField(s1, s2, 24, 32);
  }

  lemma SameField(s1: seq<byte>, s2: seq<byte>, from: nat, to: nat)
    requires |s1| == |s2| == COMPLEX_SIZE && s1[..COMPLEX_DATA] == s2[..COMPLEX_DATA] && from <= to <= COMPLEX_DATA
    ensures s1[from..to] == s2[from..to]
  {
    forall i | from <= i < to
      ensures s1[i] == s2[i]
    {
      assert s1[i] == s1[..COMPLEX_DATA][i] && s2[i] == s2[..COMPLEX_DATA][i];
    }
  }
}
