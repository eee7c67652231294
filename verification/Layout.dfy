/** On-device structures: sizes, type codes, packed headers and their byte images. */
module Layout {
  import opened Bytes

  const CLUSTER_SIZE: nat := 3840
  const SIMPLE4_SIZE: nat := 12
  const SIMPLE8_SIZE: nat := 16
  const COMPLEX_SIZE: nat := 40
  /** Where the data of a complex entry starts inside its header (the last header word is shared). */
  const COMPLEX_DATA: nat := 32
  const PV_HEADER_SIZE: nat := 36
  const BIN_COUNT: nat := 11
  const FREELIST_SIZE: nat := 88
  /** The first byte after the volume header and the freelist header. */
  const DATA_START: nat := 124
  const MAXIMUM_TYPE_SIZE: nat := 400 * 1024 * 1024

  const INT8: byte := 0
  const UINT8: byte := 1
  const INT16: byte := 2
  const UINT16: byte := 3
  const INT32: byte := 4
  const UINT32: byte := 5
  const FLOAT: byte := 6
  const DOUBLE: byte := 7
  const INT64: byte := 8
  const UINT64: byte := 9
  const STRING: byte := 10
  const BLOB: byte := 11
  const EMPTY4: byte := 13
  const EMPTY8: byte := 14
  const EMPTY_COMPLEX: byte := 15

  const STATE_EMPTY: byte := 0
  const IS_EXPIRED: byte := 1
  const COMPLEX_BEGIN: byte := 2
  const COMPLEX_SEQUEL: byte := 4

  /** The bit tests on a header's state byte. */
  predicate HasExpiry(state: byte) { state % 2 == 1 }
  predicate IsBegin(state: byte) { (state / 2) % 2 == 1 }
  predicate IsSequel(state: byte) { (state / 4) % 2 == 1 }

  // ---------------------------------------------------------------- simple headers

  /**
   * The header of a 4-byte (`|body| == 8`) or 8-byte (`|body| == 12`) entry. The body is the union: either the
   * low half of the expiry date followed by the value, or the link to the next free entry over its first 8 bytes.
   */
  datatype SimpleHeader = SimpleHeader(kind: byte, state: byte, high: nat, body: seq<byte>) {
    predicate Valid() {
      high < U16 && (|body| == 8 || |body| == 12)
    }

    function Size(): nat { 4 + |body| }

    function Low(): nat
      requires Valid()
    { Decode(body[..4]) }

    function Word(): nat
      requires Valid()
    { Decode(body[4..]) }

    function NextFree(): nat
      requires Valid()
    { Decode(body[..8]) }

    function WithNext(next: nat): SimpleHeader
      requires Valid()
    { this.(body := Encode(8, next) + body[8..]) }

    function WithExpiry(high: nat, low: nat): SimpleHeader
      requires Valid()
    { this.(state := IS_EXPIRED, high := high, body := Encode(4, low) + body[4..]) }

    function Pack(): (s: seq<byte>)
      ensures |s| == Size()
    { [kind, state] + Encode(2, high) + body }
  }

  function UnpackSimple(s: seq<byte>): (h: SimpleHeader)
    requires |s| == SIMPLE4_SIZE || |s| == SIMPLE8_SIZE
    ensures h.Valid() && h.Size() == |s|
  {
    WordRanges();
    SimpleHeader(s[0], s[1], Decode(s[2..4]), s[4..])
  }

  lemma UnpackPackSimple(h: SimpleHeader)
    requires h.Valid()
    ensures UnpackSimple(h.Pack()) == h
  {
    WordRanges();
    DecodeEncode(2, h.high);
    assert h.Pack()[2..4] == Encode(2, h.high);
    assert h.Pack()[4..] == h.body;
  }

  /** Where the fields of the header of a simple entry lie, and where a date is put. */
  lemma EntryHeaderBytes(h: SimpleHeader, high: nat, low: nat)
    requires h.Valid() && high < U16 && low < U32
    ensures var s := h.Pack();
            s[0] == h.kind && s[1] == h.state && Decode(s[8..]) == h.Word()
    ensures var s := h.WithExpiry(high, low).Pack();
            s[1] == 1 && Decode(s[2..4]) == high && Decode(s[4..8]) == low && s[8..] == h.Pack()[8..]
  {
    hide Encode, Decode;
    WordRanges();
    DecodeEncode(2, high);
    DecodeEncode(4, low);
    var dated := h.WithExpiry(high, low);
    assert h.Pack()[8..] == h.body[4..] == dated.Pack()[8..];
    assert dated.Pack()[2..4] == Encode(2, high) && dated.Pack()[4..8] == Encode(4, low);
  }

  /** A link lies over the low half of the date and the first half of the value. */
  lemma LinkedHeaderBytes(h: SimpleHeader, next: nat)
    requires h.Valid() && next < U64
    ensures var s := h.WithNext(next).Pack();
            s[..4] == h.Pack()[..4] && Decode(s[4..12]) == next && s[12..] == h.Pack()[12..]
  {
    hide Encode, Decode;
    WordRanges();
    DecodeEncode(8, next);
    var linked := h.WithNext(next);
    assert linked.Pack()[4..12] == Encode(8, next);
    assert linked.Pack()[12..] == linked.body[8..] == h.body[8..] == h.Pack()[12..];
  }

  lemma NextOfLinked(h: SimpleHeader, next: nat)
    requires h.Valid() && next < U64
    ensures h.WithNext(next).Valid() && h.WithNext(next).Size() == h.Size()
    ensures h.WithNext(next).NextFree() == next
  {
    WordRanges();
    DecodeEncode(8, next);
    assert h.WithNext(next).body[..8] == Encode(8, next);
  }

  /** Setting an expiry date is read back, and leaves the value and the type alone. */
  lemma ExpiryOfDated(h: SimpleHeader, high: nat, low: nat)
    requires h.Valid() && high < U16 && low < U32
    ensures var d := h.WithExpiry(high, low);
            d.Valid() && d.Size() == h.Size() && d.kind == h.kind && d.Word() == h.Word()
            && HasExpiry(d.state) && d.high == high && d.Low() == low
  {
    WordRanges();
    DecodeEncode(4, low);
    var d := h.WithExpiry(high, low);
    assert d.body[..4] == Encode(4, low);
    assert d.body[4..] == h.body[4..];
  }

  // --------------------------------------------------------------- complex headers

  datatype ComplexHeader = ComplexHeader(kind: byte, state: byte, high: nat, low: nat,
                                         overall: nat, chunk: nat, sequel: nat, next: nat)
  {
    predicate Fits() {
      high < U16 && low < U32 && overall < U64 && chunk < U64 && sequel < U64 && next < U64
    }

    function Pack(): (s: seq<byte>)
      ensures |s| == COMPLEX_SIZE
    {
      [kind, state] + Encode(2, high) + Encode(4, low) + Words([overall, chunk, sequel, next])
    }
  }

  function UnpackComplex(s: seq<byte>): (h: ComplexHeader)
    requires |s| == COMPLEX_SIZE
    ensures h.Fits()
  {
    WordRanges();
    ComplexHeader(s[0], s[1], Decode(s[2..4]), Decode(s[4..8]),
                  Decode(s[8..16]), Decode(s[16..24]), Decode(s[24..32]), Decode(s[32..40]))
  }

  lemma UnpackPackComplex(h: ComplexHeader)
    requires h.Fits()
    ensures UnpackComplex(h.Pack()) == h
  {
    WordRanges();
    DecodeEncode(2, h.high);
    DecodeEncode(4, h.low);
    var start := [h.kind, h.state] + Encode(2, h.high) + Encode(4, h.low);
    var words := [h.overall, h.chunk, h.sequel, h.next];
    var s := h.Pack();
    assert s == start + Words(words);
    assert s[2..4] == Encode(2, h.high) && s[4..8] == Encode(4, h.low);
    PackedWord(start, words, 0);
    PackedWord(start, words, 1);
    PackedWord(start, words, 2);
    PackedWord(start, words, 3);
  }

  /** Where the fields of a complex header lie. */
  lemma ComplexHeaderBytes(h: ComplexHeader)
    requires h.Fits()
    ensures var s := h.Pack();
            && s[0] == h.kind && s[1] == h.state && Decode(s[2..4]) == h.high && Decode(s[4..8]) == h.low
            && Decode(s[8..16]) == h.overall && Decode(s[16..24]) == h.chunk
            && Decode(s[24..32]) == h.sequel && Decode(s[32..40]) == h.next
  {
    UnpackPackComplex(h);
  }

  /** A word of an array packed after some other fields. */
  lemma {:induction false} PackedWord(start: seq<byte>, words: seq<nat>, i: nat)
    requires i < |words| && words[i] < U64
    ensures Decode((start + Words(words))[|start| + 8 * i..|start| + 8 * i + 8]) == words[i]
  {
    WordsAt(words, i);
    DecodeRight(start, Words(words), 8 * i, 8 * i + 8);
  }
}
