/** User values, their type codes, and how fixed-size ones travel through a 4- or 8-byte word. */
module Values {
  import opened Bytes
  import opened Errors
  import opened Layout

  /** Floating-point values are carried as their bit patterns. */
  datatype Value =
    | Int8(i: int) | UInt8(i: int) | Int16(i: int) | UInt16(i: int) | Int32(i: int) | UInt32(i: int) | Float(bits: nat)
    | Double(bits: nat) | Int64(i: int) | UInt64(i: int)
    | Str(bytes: seq<byte>) | Blob(bytes: seq<byte>)
  {
    predicate Fixed() { !Str? && !Blob? }

    function Kind(): byte {
      match this
      case Int8(_) => INT8
      case UInt8(_) => UINT8
      case Int16(_) => INT16
      case UInt16(_) => UINT16
      case Int32(_) => INT32
      case UInt32(_) => UINT32
      case Float(_) => FLOAT
      case Double(_) => DOUBLE
      case Int64(_) => INT64
      case UInt64(_) => UINT64
      case Str(_) => STRING
      case Blob(_) => BLOB
    }

    /** The size of the C++ type of a fixed-size value. */
    function Width(): (w: nat)
      requires Fixed()
      ensures w == 1 || w == 2 || w == 4 || w == 8
    {
      if Int8? || UInt8? then 1 else if Int16? || UInt16? then 2
      else if Int32? || UInt32? || Float? then 4 else 8
    }

    /** The header a fixed-size value is stored in. */
    function HeaderSize(): (n: nat)
      requires Fixed()
      ensures n == SIMPLE4_SIZE || n == SIMPLE8_SIZE
    { if Width() == 8 then SIMPLE8_SIZE else SIMPLE4_SIZE }

    /** Does the value lie in the range of its C++ type? */
    predicate InRange() {
      match this
      case Int8(i) => -0x80 <= i < 0x80
      case UInt8(i) => 0 <= i < 0x100
      case Int16(i) => -0x8000 <= i < 0x8000
      case UInt16(i) => 0 <= i < U16
      case Int32(i) => -0x8000_0000 <= i < 0x8000_0000
      case UInt32(i) => 0 <= i < U32
      case Float(bits) => bits < U32
      case Double(bits) => bits < U64
      case Int64(i) => -0x8000_0000_0000_0000 <= i < 0x8000_0000_0000_0000
      case UInt64(i) => 0 <= i < U64
      case _ => true
    }

    /** The object representation of a fixed-size value as a number (two's complement for signed types). */
    function Bits(): (b: nat)
      requires InRange()
    {
      match this
      case Float(bits) => bits
      case Double(bits) => bits
      case Int8(i) => if i < 0 then i + 0x100 else i
      case Int16(i) => if i < 0 then i + U16 else i
      case Int32(i) => if i < 0 then i + U32 else i
      case Int64(i) => if i < 0 then i + U64 else i
      case UInt8(i) => i
      case UInt16(i) => i
      case UInt32(i) => i
      case UInt64(i) => i
      case _ => 0
    }
  }

  /** The low `width` bytes of a word: what a conversion to a narrower unsigned type keeps. */
  function Low(word: nat, width: nat): (low: nat)
    ensures low < Range(width)
  { Decode(Encode(width, word)) }

  /** A number below 256^width read as a two's complement number of that width. */
  function AsSigned(low: nat, bound: nat): int {
    if low < bound / 2 then low else low - bound
  }

  /** The value of a stored word: narrow types take its low bytes and ignore the rest. */
  function ValueOf(kind: byte, word: nat): Option<Value> {
    if kind == INT8 then Some(Int8(AsSigned(Low(word, 1), 0x100)))
    else if kind == UINT8 then Some(UInt8(Low(word, 1)))
    else if kind == INT16 then Some(Int16(AsSigned(Low(word, 2), U16)))
    else if kind == UINT16 then Some(UInt16(Low(word, 2)))
    else if kind == INT32 then Some(Int32(AsSigned(Low(word, 4), U32)))
    else if kind == UINT32 then Some(UInt32(Low(word, 4)))
    else if kind == FLOAT then Some(Float(Low(word, 4)))
    else if kind == DOUBLE then Some(Double(Low(word, 8)))
    else if kind == INT64 then Some(Int64(AsSigned(Low(word, 8), U64)))
    else if kind == UINT64 then Some(UInt64(Low(word, 8)))
    else None
  }

  /** The low bytes of a word are the bytes it starts with. */
  lemma LowOfConcat(a: seq<byte>, b: seq<byte>)
    ensures Low(Decode(a + b), |a|) == Decode(a)
  {
    EncodeDecode(a + b);
    EncodePrefix(|a + b|, |a|, Decode(a + b));
    assert (a + b)[..|a|] == a;
  }

  /** Signed integers are stored in two's complement. */
  lemma BitsAreTwosComplement(v: Value)
    requires v.Fixed() && v.InRange()
    ensures v.Int8? ==> v.Bits() == v.i % 0x100
    ensures v.Int16? ==> v.Bits() == v.i % U16
    ensures v.Int32? ==> v.Bits() == v.i % U32
    ensures v.Int64? ==> v.Bits() == v.i % U64
  {
  }

  lemma BitsFit(v: Value)
    requires v.Fixed() && v.InRange()
    ensures v.Bits() < Range(v.Width())
  {
    WordRanges();
  }

  /** The representation determines the value, given its type. */
  lemma ValueOfBits(v: Value, word: nat)
    requires v.Fixed() && v.InRange() && Low(word, v.Width()) == v.Bits()
    ensures ValueOf(v.Kind(), word) == Some(v)
  {
  }

  /**
   * A fixed-size value comes back from the bytes copied into the value field: its representation, followed by
   * whatever lies behind it in memory.
   */
  lemma ValueRoundTrip(v: Value, rest: seq<byte>)
    requires v.Fixed() && v.InRange()
    ensures ValueOf(v.Kind(), Decode(Encode(v.Width(), v.Bits()) + rest)) == Some(v)
  {
    hide Low, ValueOf, Decode, Encode, Range;
    BitsFit(v);
    DecodeEncode(v.Width(), v.Bits());
    LowOfConcat(Encode(v.Width(), v.Bits()), rest);
    ValueOfBits(v, Decode(Encode(v.Width(), v.Bits()) + rest));
  }
}
