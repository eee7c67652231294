/** Expiry dates: 48-bit times stored as a high and a low word. */
module Time {
  import opened Bytes

  const U48: nat := 0x1_0000_0000_0000
  const I64: int := 0x8000_0000_0000_0000

  datatype Time = Time(high: nat, low: nat) {
    predicate Valid() { high < U16 && low < U32 }

    /** The order of the library: first by the high word, then by the low one. */
    predicate Less(other: Time) {
      (high == other.high && low < other.low) || high < other.high
    }
  }

  /** A signed 64-bit integer as it is converted to an unsigned one, and back. */
  function Unsigned(t: int): (u: nat)
    requires -I64 <= t < I64
    ensures u < U64 && (u == t || u == t + U64)
  { if t < 0 then t + U64 else t }

  function Signed(u: nat): (t: int)
    requires u < U64
    ensures -I64 <= t < I64 && (t == u || t == u - U64)
  { if u < I64 then u else u - U64 }

  /** Dates that need more than 48 bits (among them every negative one) saturate. */
  function FromTimeT(t: int): (r: Time)
    requires -I64 <= t < I64
    ensures r.Valid() && r.high * U32 + r.low == if 0 <= t < U48 then t else U48 - 1
  {
    var u := Unsigned(t);
    if u >= U48 then Time(U16 - 1, U32 - 1) else Time(u / U32, u % U32)
  }

  /** Reading a date back: the high word is shifted by 48 bits, although it was stored from bit 32 on. */
  function ToTimeT(time: Time): (t: int)
    requires time.Valid()
    ensures -I64 <= t < I64
  { Signed(time.low + time.high * U48) }

  /** The number a stored date stands for: the date itself, saturated at 48 bits. */
  function Seconds(t: int): (s: nat)
    requires -I64 <= t < I64
    ensures s == if 0 <= t < U48 then t else U48 - 1
  { if Unsigned(t) >= U48 then U48 - 1 else Unsigned(t) }

  /** Comparing stored dates compares the saturated dates as numbers. */
  lemma LessIsNumeric(s: int, t: int)
    requires -I64 <= s < I64 && -I64 <= t < I64
    ensures FromTimeT(s).Less(FromTimeT(t)) <==> Seconds(s) < Seconds(t)
  {
    var a, b := FromTimeT(s), FromTimeT(t);
    assert Seconds(s) == a.high * U32 + a.low && Seconds(t) == b.high * U32 + b.low;
  }

  /**
   * What comes back of a stored date: its lower 32 bits, and the bits above them moved up by another 16. For dates below
   * 2^32 that is the date itself.
   */
  lemma ReadsBackShifted(t: int)
    requires -I64 <= t < I64
    ensures var u, s := Unsigned(ToTimeT(FromTimeT(t))), if 0 <= t < U48 then t else U48 - 1;
            u % U48 == s % U32 && u / U48 == s / U32
  {
    var d := FromTimeT(t);
    assert Unsigned(ToTimeT(d)) == d.high * U48 + d.low;
  }

  /** The one negative date that happens to come back. */
  const FIXED_POINT: int := -0x1_0000_0000_0000 + 0x1_0000_0000 - 1

  /** A stored date reads back as itself exactly when it is below 2^32 or is that one negative date. */
  lemma ReadsBackExactly(t: int)
    requires -I64 <= t < I64
    ensures ToTimeT(FromTimeT(t)) == t <==> 0 <= t < U32 || t == FIXED_POINT
  {
    var u := Unsigned(t);
    if u < U48 {
      var h := u / U32;
      assert u == h * U32 + u % U32;
      if h > 0 {
        assert u % U32 + h * U48 > u;
        assert u % U32 + h * U48 - U64 < 0;
      }
    }
  }
}
