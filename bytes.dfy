/** Bytes and the fixed-width big-endian integers of the synthesis wire protocol. */
module Bytes {

  type byte = b: int | 0 <= b < 256

  const Two31: int := 0x8000_0000
  const Two32: int := 0x1_0000_0000

  /** `struct.unpack(">I", b)`: an unsigned 32-bit big-endian integer. */
  function U32FromBE(b: seq<byte>): (n: nat)
    requires |b| == 4
    ensures n < Two32
  {
    (((b[0] as int) * 0x100 + b[1]) * 0x100 + b[2]) * 0x100 + b[3]
  }

  /** `struct.pack(">I", n)`; Python raises `struct.error` for any n outside [0, 2^32). */
  function U32ToBE(n: nat): (b: seq<byte>)
    requires n < Two32
    ensures |b| == 4 && U32FromBE(b) == n
  {
    var n1 := n / 0x100;
    var n2 := n1 / 0x100;
    var n3 := n2 / 0x100;
    [n3, n2 % 0x100, n1 % 0x100, n % 0x100]
  }

  /** `struct.unpack(">i", b)`: a signed (two's complement) 32-bit big-endian integer. */
  function I32FromBE(b: seq<byte>): (x: int)
    requires |b| == 4
    ensures -Two31 <= x < Two31
    ensures x < 0 <==> b[0] >= 0x80
  {
    var u := U32FromBE(b);
    if u >= Two31 then u - Two32 else u
  }

  /** `struct.pack(">i", x)`, used only by the reference frame encoder. */
  function I32ToBE(x: int): (b: seq<byte>)
    requires -Two31 <= x < Two31
    ensures |b| == 4 && I32FromBE(b) == x
  {
    U32ToBE(if x < 0 then x + Two32 else x)
  }

  /** Decoding four bytes and encoding the result gives the same four bytes back. */
  lemma {:induction false} U32BERoundTrip(b: seq<byte>)
    requires |b| == 4
    ensures U32ToBE(U32FromBE(b)) == b
  {
    var m2 := (b[0] as int) * 0x100 + b[1];
    var m1 := m2 * 0x100 + b[2];
    var n := m1 * 0x100 + b[3];
    ByteDivMod(n, m1, b[3]);
    ByteDivMod(m1, m2, b[2]);
    ByteDivMod(m2, b[0], b[1]);
    ByteDivMod(b[0], 0, b[0]);
  }

  /** Division by 256 is determined by quotient and remainder. */
  lemma ByteDivMod(n: int, q: int, r: int)
    requires 0 <= r < 0x100 && n == q * 0x100 + r
    ensures n / 0x100 == q && n % 0x100 == r
  {
  }
}
