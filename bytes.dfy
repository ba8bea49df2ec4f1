/** Big-endian byte splitting of the PGS muxer (`longtobyte`, `inttobyte` in
    PGSEncoder/main.c). The source computes each byte with `floor(double)` and
    stores it into a `char`; here the floor is integer division (Dafny's `/`
    with a positive divisor rounds down) and the `char` store keeps the low
    eight bits. */
module Bytes {

  type byte = x: int | 0 <= x < 256

  const TWO16: int := 0x1_0000
  const TWO24: int := 0x100_0000
  const TWO32: int := 0x1_0000_0000

  /** Storing an integer into a `char`: only the low eight bits survive. */
  function Trunc8(x: int): byte
  {
    x % 256
  }

  /** `longtobyte`: the four bytes written for a timestamp. The intermediates
      c5..c8 are those of the source's negative branch. The positive branch
      stores the same four bytes for every l >= 0: each intermediate it
      reads back from a `char` differs from the negative branch's by a
      multiple of 256, which shifts the later differences by multiples of
      256 times their weights and so changes no later byte modulo 256
      (the out-of-range conversions to `char` are taken to wrap modulo 256,
      as they do on the usual targets). */
  function LongToBytes(l: int): (r: seq<byte>)
    ensures |r| == 4
  {
    var c5 := l / TWO24;
    var c6 := (l - c5 * TWO24) / TWO16;
    var c7 := (l - c5 * TWO24 - c6 * TWO16) / 256;
    var c8 := l - c5 * TWO24 - c6 * TWO16 - c7 * 256;
    [Trunc8(c5), Trunc8(c6), Trunc8(c7), Trunc8(c8)]
  }

  /** `inttobyte`: the high byte is floor(l/256); the low byte l - c1*256 is
      congruent to l modulo 256 whichever way the `char` c1 is read back. */
  function IntToBytes(l: int): (r: seq<byte>)
    ensures |r| == 2
  {
    [Trunc8(l / 256), Trunc8(l)]
  }

  /** Reading four bytes back as an unsigned big-endian number. */
  function BigEndian32(b: seq<byte>): nat
    requires |b| == 4
  {
    b[0] as int * TWO24 + b[1] as int * TWO16 + b[2] as int * 256 + b[3] as int
  }

  /** Reading four bytes back as a two's-complement big-endian number. */
  function SignedBigEndian32(b: seq<byte>): int
    requires |b| == 4
  {
    if b[0] >= 128 then BigEndian32(b) - TWO32 else BigEndian32(b)
  }

  /** Reading two bytes back as an unsigned big-endian number. */
  function BigEndian16(b: seq<byte>): nat
    requires |b| == 2
  {
    b[0] as int * 256 + b[1] as int
  }

  /** `longtobyte` writes the 32-bit two's-complement pattern of any l. */
  lemma LongToBytesModulo(l: int)
    ensures BigEndian32(LongToBytes(l)) == l % TWO32
  {
    var c5 := l / TWO24;
    var rest := l - c5 * TWO24;
    assert 0 <= rest < TWO24;
    var c6 := rest / TWO16;
    var rest2 := rest - c6 * TWO16;
    assert 0 <= c6 < 256 && 0 <= rest2 < TWO16;
    var c7 := rest2 / 256;
    var c8 := rest2 - c7 * 256;
    assert 0 <= c7 < 256 && 0 <= c8 < 256;
    var b := LongToBytes(l);
    assert b == [Trunc8(c5), c6, c7, c8];
    var q := c5 / 256;
    assert c5 == q * 256 + Trunc8(c5);
    var low := Trunc8(c5) * TWO24 + c6 * TWO16 + c7 * 256 + c8;
    assert l == q * TWO32 + low;
    assert BigEndian32(b) == low;
    ModuloOfSplit(l, q, low);
  }

  /** The high byte decides the sign: it is at least 128 exactly when the
      unsigned value is at least 2^31. */
  lemma HighByteBound(b: seq<byte>)
    requires |b| == 4
    ensures b[0] >= 128 <==> BigEndian32(b) >= 0x8000_0000
  {
  }

  /** Euclidean division by 2^32 is unique. */
  lemma ModuloOfSplit(l: int, q: int, r: int)
    requires l == q * TWO32 + r && 0 <= r < TWO32
    ensures l % TWO32 == r
  {
  }

  /** For every timestamp in the signed 32-bit range, reading the bytes back
      as a signed big-endian number gives the timestamp again. */
  lemma LongToBytesRoundTrip(l: int)
    requires -0x8000_0000 <= l < 0x8000_0000
    ensures SignedBigEndian32(LongToBytes(l)) == l
  {
    LongToBytesModulo(l);
    var b := LongToBytes(l);
    if l >= 0 {
      ModuloOfSplit(l, 0, l);
      assert b[0] < 128 by { HighByteBound(b); }
    } else {
      ModuloOfSplit(l, -1, l + TWO32);
      assert b[0] >= 128 by { HighByteBound(b); }
    }
  }

  /** `inttobyte` writes the low 16 bits of any l, most significant first. */
  lemma IntToBytesModulo(l: int)
    ensures BigEndian16(IntToBytes(l)) == l % TWO16
  {
    var h := l / 256;
    assert l == h * 256 + l % 256;
    assert h == (h / 256) * 256 + h % 256;
    assert l == (h / 256) * TWO16 + (h % 256) * 256 + l % 256;
  }

  /** Round trip for the 16-bit lengths, sizes and offsets of the segments. */
  lemma IntToBytesRoundTrip(l: int)
    requires 0 <= l < TWO16
    ensures BigEndian16(IntToBytes(l)) == l
  {
    IntToBytesModulo(l);
  }
}
