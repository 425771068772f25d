/** Bytes, fixed-width integers and network byte order.
    Integer widths are written out: values are mathematical integers and every
    narrowing conversion of the program is an explicit function here. */
module Bytes {

  type byte = b: int | 0 <= b < 256

  type uint32 = n: int | 0 <= n < 0x1_0000_0000

  type int32 = n: int | -0x8000_0000 <= n < 0x8000_0000

  function Pow256(n: nat): (p: nat)
    ensures p > 0
  {
    if n == 0 then 1 else 256 * Pow256(n - 1)
  }

  /** The two's-complement reading of an `n`-byte word. */
  function Signed(u: nat, n: nat): int {
    if 2 * u < Pow256(n) then u else u - Pow256(n)
  }

  /** The `n`-byte word whose two's-complement reading is `x` (or wraps to it). */
  function Unsigned(x: int, n: nat): nat {
    x % Pow256(n)
  }

  /** `static_cast<int>` of a 64-bit size. */
  function ToInt32(x: int): (r: int32)
    ensures -0x8000_0000 <= x < 0x8000_0000 ==> r == x
    ensures x >= 0 ==> r <= x
  {
    var u := x % 0x1_0000_0000;
    if u < 0x8000_0000 then u else u - 0x1_0000_0000
  }

  /** Most significant byte first: what `htonl` and the byte-swap macro put in memory. */
  function BigEndian(u: nat, n: nat): (s: seq<byte>)
    ensures |s| == n
  {
    if n == 0 then [] else BigEndian(u / 256, n - 1) + [u % 256]
  }

  function FromBigEndian(s: seq<byte>): nat {
    if s == [] then 0 else FromBigEndian(s[..|s| - 1]) * 256 + s[|s| - 1]
  }

  /** Least significant byte first: how the host stores an integer. */
  function LittleEndian(u: nat, n: nat): (s: seq<byte>)
    ensures |s| == n
  {
    if n == 0 then [] else [u % 256] + LittleEndian(u / 256, n - 1)
  }

  lemma {:induction false} BigEndianRoundTrip(u: nat, n: nat)
    requires u < Pow256(n)
    ensures FromBigEndian(BigEndian(u, n)) == u
  {
    if n > 0 {
      var s, q := BigEndian(u, n), u / 256;
      assert u == 256 * q + u % 256 && q < Pow256(n - 1);
      BigEndianRoundTrip(q, n - 1);
      assert s[..n - 1] == BigEndian(q, n - 1) && s[n - 1] == u % 256;
    }
  }

  lemma {:induction false} ReadBack(s: seq<byte>)
    ensures BigEndian(FromBigEndian(s), |s|) == s
  {
    if s != [] {
      var n := |s| - 1;
      ReadBack(s[..n]);
      DivModUnique(FromBigEndian(s), 256, FromBigEndian(s[..n]), s[n]);
    }
  }

  lemma {:induction false} FromBigEndianBound(s: seq<byte>)
    ensures FromBigEndian(s) < Pow256(|s|)
  {
    if s != [] {
      FromBigEndianBound(s[..|s| - 1]);
    }
  }

  /** Network order reads back exactly the integer that was written, for every width
      and every value of that width. */
  lemma NetworkOrderRoundTrip(x: int, n: nat)
    requires n > 0 && 0 <= 2 * x + Pow256(n) < 2 * Pow256(n)
    ensures Signed(FromBigEndian(BigEndian(Unsigned(x, n), n)), n) == x
  {
    UnsignedValue(x, Pow256(n));
    BigEndianRoundTrip(Unsigned(x, n), n);
  }

  lemma UnsignedValue(x: int, m: int)
    requires m > 0 && -m <= x < m
    ensures x % m == if x < 0 then x + m else x
  {
    if x < 0 {
      DivModUnique(x, m, -1, x + m);
    } else {
      DivModUnique(x, m, 0, x);
    }
  }

  lemma DivModUnique(x: int, m: int, q: int, r: int)
    requires 0 <= r < m && x == q * m + r
    ensures x / m == q && x % m == r
  {
    var d := x / m - q;
    assert d * m == r - x % m by {
      assert x == x / m * m + x % m;
      assert d * m == x / m * m - q * m;
    }
    assert d >= 1 ==> d * m >= m;
    assert d <= -1 ==> d * m <= -m;
  }

  /** The 64-bit byte-swap macro, each mask-and-shift written as a quotient and remainder. */
  function Bswap64(x: nat): nat
    requires x < Pow256(8)
  {
    x / 0x100_0000_0000_0000
    + x / 0x1_0000_0000_0000 % 256 * 0x100
    + x / 0x100_0000_0000 % 256 * 0x1_0000
    + x / 0x1_0000_0000 % 256 * 0x100_0000
    + x / 0x100_0000 % 256 * 0x1_0000_0000
    + x / 0x1_0000 % 256 * 0x100_0000_0000
    + x / 0x100 % 256 * 0x1_0000_0000_0000
    + x % 256 * 0x100_0000_0000_0000
  }

  function FromDigits(d: seq<byte>): nat {
    if d == [] then 0 else d[0] + 256 * FromDigits(d[1..])
  }

  lemma {:induction false} LittleEndianOfDigits(d: seq<byte>)
    ensures LittleEndian(FromDigits(d), |d|) == d
  {
    if d != [] {
      var rest := FromDigits(d[1..]);
      LittleEndianOfDigits(d[1..]);
      DivModUnique(d[0] + 256 * rest, 256, rest, d[0]);
      assert d == [d[0]] + d[1..];
    }
  }

  lemma {:induction false} FromDigitsSplit(d: seq<byte>, e: seq<byte>)
    ensures FromDigits(d + e) == FromDigits(d) + Pow256(|d|) * FromDigits(e)
  {
    if d == [] {
      assert d + e == e;
    } else {
      FromDigitsSplit(d[1..], e);
      assert (d + e)[1..] == d[1..] + e;
      assert Pow256(|d|) == 256 * Pow256(|d| - 1);
      assert 256 * (Pow256(|d| - 1) * FromDigits(e)) == 256 * Pow256(|d| - 1) * FromDigits(e);
    }
  }

  lemma FromFourDigits(a: byte, b: byte, c: byte, e: byte)
    ensures FromDigits([a, b, c, e]) == a + 0x100 * b + 0x1_0000 * c + 0x100_0000 * e
  {
    var d := [a, b, c, e];
    assert [e][1..] == [] && FromDigits([e]) == e;
    assert [c, e][1..] == [e] && FromDigits([c, e]) == c + 256 * e;
    assert [b, c, e][1..] == [c, e] && FromDigits([b, c, e]) == b + 256 * (c + 256 * e);
    assert d[1..] == [b, c, e];
  }

  function FourDigits(x: nat): seq<byte> {
    [x / 0x100_0000 % 256, x / 0x1_0000 % 256, x / 0x100 % 256, x % 256]
  }

  lemma ShiftDigits(x: nat)
    ensures x / 256 / 256 == x / 0x1_0000 && x / 256 / 256 / 256 == x / 0x100_0000
    ensures x / 256 / 256 / 256 / 256 == x / 0x1_0000_0000
  {
  }

  lemma {:induction false} BigEndianTail(x: nat, n: nat)
    requires n >= 4
    ensures BigEndian(x, n) == BigEndian(x / 0x1_0000_0000, n - 4) + FourDigits(x)
  {
    var x1 := x / 256;
    var x2 := x1 / 256;
    var x3 := x2 / 256;
    ShiftDigits(x);
    assert BigEndian(x3, n - 3) == BigEndian(x3 / 256, n - 4) + [x3 % 256];
    assert BigEndian(x2, n - 2) == BigEndian(x3 / 256, n - 4) + [x3 % 256, x2 % 256];
    assert BigEndian(x1, n - 1) == BigEndian(x3 / 256, n - 4) + [x3 % 256, x2 % 256, x1 % 256];
  }

  lemma Bswap64Digits(x: nat)
    requires x < Pow256(8)
    ensures Bswap64(x) == FromDigits(FourDigits(x / 0x1_0000_0000)) + 0x1_0000_0000 * FromDigits(FourDigits(x))
  {
    var h := x / 0x1_0000_0000;
    FromFourDigits(h / 0x100_0000 % 256, h / 0x1_0000 % 256, h / 0x100 % 256, h % 256);
    FromFourDigits(x / 0x100_0000 % 256, x / 0x1_0000 % 256, x / 0x100 % 256, x % 256);
    HighDigits(x);
  }

  lemma HighDigits(x: nat)
    requires x < Pow256(8)
    ensures x / 0x1_0000_0000 / 0x100 == x / 0x100_0000_0000
    ensures x / 0x1_0000_0000 / 0x1_0000 == x / 0x1_0000_0000_0000
    ensures x / 0x1_0000_0000 / 0x100_0000 % 256 == x / 0x100_0000_0000_0000
  {
    assert Pow256(8) == 0x1_0000_0000_0000_0000;
  }

  /** Storing the swapped word on a little-endian host leaves the value in network order. */
  lemma Bswap64IsNetworkOrder(x: nat, n: nat)
    requires n == 8 && x < Pow256(n)
    ensures LittleEndian(Bswap64(x), n) == BigEndian(x, n)
  {
    var h := x / 0x1_0000_0000;
    var d := FourDigits(h) + FourDigits(x);
    BigEndianTail(x, n);
    BigEndianTail(h, n - 4);
    assert BigEndian(x, n) == d;
    Bswap64Digits(x);
    FromDigitsSplit(FourDigits(h), FourDigits(x));
    assert Pow256(4) == 0x1_0000_0000;
    LittleEndianOfDigits(d);
  }
}
