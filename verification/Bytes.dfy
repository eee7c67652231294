/** Byte strings, little-endian words and the splice that a positioned write performs. */
module Bytes {

  type byte = x: int | 0 <= x < 256

  /** 256 to the power `width`: the number of values a word of `width` bytes can hold. */
  function Range(width: nat): (r: nat)
    ensures r > 0
  {
    if width == 0 then 1 else 256 * Range(width - 1)
  }

  /** The little-endian bytes of `x`, truncated to `width` bytes as a C++ conversion would. */
  function Encode(width: nat, x: nat): (s: seq<byte>)
    ensures |s| == width
  {
    if width == 0 then [] else [x % 256] + Encode(width - 1, x / 256)
  }

  function Decode(s: seq<byte>): (x: nat)
    ensures x < Range(|s|)
  {
    if |s| == 0 then 0 else s[0] + 256 * Decode(s[1..])
  }

  const U16: nat := 0x1_0000
  const U32: nat := 0x1_0000_0000
  const U64: nat := 0x1_0000_0000_0000_0000

  lemma WordRanges()
    ensures Range(1) == 256 && Range(2) == U16 && Range(4) == U32 && Range(8) == U64
  {
    assert Range(2) == 256 * Range(1);
    assert Range(4) == 256 * Range(3) && Range(3) == 256 * Range(2);
    assert Range(8) == 256 * Range(7) && Range(7) == 256 * Range(6);
    assert Range(6) == 256 * Range(5) && Range(5) == 256 * Range(4);
  }

  /** Words are stored with the low byte first. */
  lemma {:induction false} EncodeByte(width: nat, x: nat, i: nat)
    requires i < width
    ensures Encode(width, x)[i] == x / Range(i) % 256
  {
    if i > 0 {
      EncodeByte(width - 1, x / 256, i - 1);
      DivisionTwice(x, Range(i - 1));
    }
  }

  lemma DivisionTwice(x: nat, n: nat)
    requires 0 < n
    ensures x / 256 / n == x / (256 * n)
  {
    var q := x / 256 / n;
    var r := x - 256 * n * q;
    assert x / 256 == n * q + x / 256 % n;
    assert 0 <= r < 256 * n;
    assert x == (256 * n) * q + r;
    QuotientIs(x, 256 * n, q, r);
  }

  lemma QuotientIs(x: nat, d: nat, q: nat, r: nat)
    requires 0 < d && x == d * q + r && r < d
    ensures x / d == q
  {
    var p := x / d;
    assert d * (p - q) == r - x % d;
    assert p - q >= 1 ==> d * (p - q) >= d;
    assert p - q <= -1 ==> d * (p - q) + d <= 0;
  }

  /** Storing a word and loading it again gives the word back, provided it fits. */
  lemma {:induction false} DecodeEncode(width: nat, x: nat)
    requires x < Range(width)
    ensures Decode(Encode(width, x)) == x
  {
    if width > 0 {
      DecodeEncode(width - 1, x / 256);
      assert Encode(width, x)[1..] == Encode(width - 1, x / 256);
    }
  }

  /** Loading bytes and storing the word again gives the bytes back. */
  lemma {:induction false} EncodeDecode(s: seq<byte>)
    ensures Encode(|s|, Decode(s)) == s
  {
    if |s| > 0 {
      EncodeDecode(s[1..]);
      assert Decode(s) % 256 == s[0] && Decode(s) / 256 == Decode(s[1..]);
    }
  }

  /** The first bytes of a stored word are the word reduced to that width. */
  lemma {:induction false} EncodePrefix(width: nat, low: nat, x: nat)
    requires low <= width
    ensures Encode(width, x)[..low] == Encode(low, x)
  {
    if low > 0 {
      EncodePrefix(width - 1, low - 1, x / 256);
      assert Encode(width, x)[..low] == [x % 256] + Encode(width - 1, x / 256)[..low - 1];
    }
  }

  /** Consecutive 8-byte words. */
  function Words(xs: seq<nat>): (s: seq<byte>)
    ensures |s| == 8 * |xs|
  {
    if |xs| == 0 then [] else Encode(8, xs[0]) + Words(xs[1..])
  }

  lemma DecodeRight(a: seq<byte>, b: seq<byte>, from: nat, to: nat)
    requires from <= to <= |b|
    ensures Decode((a + b)[|a| + from..|a| + to]) == Decode(b[from..to])
  {
    SliceRight(a, b, from, to);
  }

  /** Each word of a packed array is loaded back from its place. */
  lemma {:induction false} WordsAt(xs: seq<nat>, i: nat)
    requires i < |xs| && xs[i] < U64
    ensures Decode(Words(xs)[8 * i..8 * i + 8]) == xs[i]
  {
    if i == 0 {
      WordRanges();
      DecodeEncode(8, xs[0]);
      assert Words(xs)[0..8] == Encode(8, xs[0]);
    } else {
      WordsAt(xs[1..], i - 1);
      assert Words(xs)[8 * i..8 * i + 8] == Words(xs[1..])[8 * i - 8..8 * i];
    }
  }

  /** What a write of `data` at `pos` leaves behind: the range is replaced, or the string extended. */
  function Splice(s: seq<byte>, pos: nat, data: seq<byte>): (r: seq<byte>)
    requires pos <= |s|
    ensures |r| == if pos + |data| <= |s| then |s| else pos + |data|
  {
    if pos + |data| <= |s| then s[..pos] + data + s[pos + |data|..] else s[..pos] + data
  }

  lemma SpliceAt(s: seq<byte>, pos: nat, data: seq<byte>)
    requires pos <= |s|
    ensures Splice(s, pos, data)[pos..pos + |data|] == data
  {
  }

  /** A write leaves every range it does not touch as it was. */
  lemma SpliceElsewhere(s: seq<byte>, pos: nat, data: seq<byte>, from: nat, to: nat)
    requires pos <= |s| && from <= to <= |s|
    requires to <= pos || pos + |data| <= from
    ensures to <= |Splice(s, pos, data)|
    ensures Splice(s, pos, data)[from..to] == s[from..to]
  {
  }

  lemma SliceLeft(a: seq<byte>, b: seq<byte>, from: nat, to: nat)
    requires from <= to <= |a|
    ensures (a + b)[from..to] == a[from..to]
  {
  }

  /** A range of a range. */
  lemma SliceOfSlice(s: seq<byte>, from: nat, to: nat, i: nat, j: nat)
    requires from <= to <= |s| && i <= j <= to - from
    ensures s[from..to][i..j] == s[from + i..from + j]
  {
    var inner := s[from..to];
    assert forall k | i <= k < j :: inner[k] == s[from + k];
  }

  /** A range of a concatenation that lies in its second part. */
  lemma SliceRight(a: seq<byte>, b: seq<byte>, from: nat, to: nat)
    requires from <= to <= |b|
    ensures (a + b)[|a| + from..|a| + to] == b[from..to]
  {
  }
}
