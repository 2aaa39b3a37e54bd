/** Bytes, C strings and the fixed-width integer conversions of the LP64 C
    platform the module is built for (char and int are 8 and 32 bits, long is
    64 bits, plain char is signed). */
module Bytes {

  type byte = b: int | 0 <= b < 256

  const Two8: int := 0x100
  const Two15: int := 0x8000
  const Two16: int := 0x1_0000
  const Two24: int := 0x100_0000
  const Two31: int := 0x8000_0000
  const Two32: int := 0x1_0000_0000
  const Two63: int := 0x8000_0000_0000_0000
  const Two64: int := 0x1_0000_0000_0000_0000

  /** A C string: the bytes before its terminating NUL. */
  predicate NoNul(s: seq<byte>) {
    forall i :: 0 <= i < |s| ==> s[i] != 0
  }

  /** The C string that starts at the first byte of buf (strlen, then the bytes). */
  function CStr(buf: seq<byte>): (s: seq<byte>)
    ensures NoNul(s) && s <= buf
    ensures |s| < |buf| ==> buf[|s|] == 0
  {
    if buf == [] || buf[0] == 0 then [] else [buf[0]] + CStr(buf[1..])
  }

  function Min(a: int, b: int): int { if a < b then a else b }

  /** A slice is the slice one shorter, then its last byte. */
  lemma SliceSnoc(s: seq<byte>, i: nat, j: nat)
    requires i < j <= |s|
    ensures s[i..j] == s[i..j - 1] + [s[j - 1]]
  {
  }

  function Repeat(c: byte, n: nat): (r: seq<byte>)
    ensures |r| == n && forall i :: 0 <= i < n ==> r[i] == c
  {
    if n == 0 then [] else Repeat(c, n - 1) + [c]
  }

  /** Conversion of any integer to a 32-bit signed int (two's complement wrap). */
  function Int32(x: int): (r: int)
    ensures -Two31 <= r < Two31
    ensures (r - x) % Two32 == 0
  {
    var u := x % Two32;
    if u >= Two31 then u - Two32 else u
  }

  /** An int that fits is its own 32-bit conversion. */
  lemma Int32Id(x: int)
    requires -Two31 <= x < Two31
    ensures Int32(x) == x
  {
    if x < 0 {
      assert x % Two32 == x + Two32;
    }
  }

  /** Conversion of any integer to an unsigned char. */
  function Uint8(x: int): (r: int)
    ensures 0 <= r < 256 && (r - x) % 256 == 0
  {
    x % 256
  }

  /** A value that fits is its own unsigned char conversion. */
  lemma Uint8Id(x: int)
    requires 0 <= x < 256
    ensures Uint8(x) == x
  {
  }

  /** Conversion of any integer to a 32-bit unsigned int. */
  function Uint32(x: int): (r: int)
    ensures 0 <= r < Two32 && (r - x) % Two32 == 0
  {
    x % Two32
  }

  lemma Uint32Id(x: int)
    requires 0 <= x < Two32
    ensures Uint32(x) == x
  {
  }

  /** A signed char (x86 plain char) seen from its byte. */
  function SignedChar(c: byte): (r: int)
    ensures -128 <= r < 128 && (r - c) % 256 == 0
  {
    if c >= 128 then c - 256 else c
  }

  /** C's `/` on integers (truncates toward zero). */
  function CDiv(a: int, b: int): (q: int)
    requires b > 0
    ensures a >= 0 ==> q == a / b
    ensures a < 0 ==> q == -((-a) / b)
  {
    if a >= 0 then a / b else -((-a) / b)
  }

  /** C's `%` on integers (the remainder takes the sign of the dividend). */
  function CMod(a: int, b: int): (r: int)
    requires b > 0
    ensures a == CDiv(a, b) * b + r
    ensures a >= 0 ==> 0 <= r < b && r == a % b
    ensures a < 0 ==> -b < r <= 0
  {
    a - CDiv(a, b) * b
  }

  /** store24(): the low three bytes of a value, least significant first. */
  function Store24(v: int): (b: seq<byte>)
    ensures |b| == 3
  {
    [v % 256, (v / 256) % 256, (v / Two16) % 256]
  }

  /** uint3korr(): three little-endian bytes as an unsigned value. */
  function Uint3Korr(b: seq<byte>): (v: int)
    requires |b| >= 3
    ensures 0 <= v < Two24
  {
    b[0] as int + 256 * (b[1] as int) + Two16 * (b[2] as int)
  }

  /** sint3korr(): three little-endian bytes as a sign-extended value. */
  function Sint3Korr(b: seq<byte>): (v: int)
    requires |b| >= 3
    ensures -0x80_0000 <= v < 0x80_0000
    ensures (v - Uint3Korr(b)) % Two24 == 0
  {
    var u := Uint3Korr(b);
    if u >= 0x80_0000 then u - Two24 else u
  }

  /** uint2korr(): two little-endian bytes. */
  function Uint2Korr(b: seq<byte>): (v: int)
    requires |b| >= 2
    ensures 0 <= v < Two16
  {
    b[0] as int + 256 * (b[1] as int)
  }

  /** The unsigned value of n little-endian bytes. */
  function LittleEndian(b: seq<byte>): (v: nat)
    ensures v < Pow256(|b|)
  {
    if b == [] then 0 else b[0] as int + 256 * LittleEndian(b[1..])
  }

  function Pow256(n: nat): (r: nat)
    ensures r >= 1
  {
    if n == 0 then 1 else 256 * Pow256(n - 1)
  }

  lemma MulAtLeast(d: int, k: int)
    requires d > 0 && k >= 1
    ensures d * k >= d
  {
    assert d * k == d * (k - 1) + d;
  }

  lemma DivModUnique(v: int, d: int, q: int, r: int)
    requires d > 0 && 0 <= r < d && v == d * q + r
    ensures v / d == q && v % d == r
  {
    var q', r' := v / d, v % d;
    if q > q' {
      assert d * (q - q') == r' - r by {
        assert d * (q - q') == d * q - d * q';
      }
      MulAtLeast(d, q - q');
    } else if q < q' {
      assert d * (q' - q) == r - r' by {
        assert d * (q' - q) == d * q' - d * q;
      }
      MulAtLeast(d, q' - q);
    }
  }

  /** Storing a value in three bytes and reading them back yields the value
      modulo 2^24: the unsigned reading is the low 24 bits. */
  lemma Store24Uint3Korr(v: int)
    ensures Uint3Korr(Store24(v)) == v % Two24
  {
    var q0 := v / 256;
    var q1 := q0 / 256;
    var b0, b1, b2 := v % 256, q0 % 256, q1 % 256;
    assert v == 256 * q0 + b0;
    assert q0 == 256 * q1 + b1;
    assert 256 * q0 == Two16 * q1 + 256 * b1;
    DivModUnique(v, Two16, q1, b0 + 256 * b1);
    assert q1 == 256 * (q1 / 256) + b2;
    assert Two16 * q1 == Two24 * (q1 / 256) + Two16 * b2;
    DivModUnique(v, Two24, q1 / 256, b0 + 256 * b1 + Two16 * b2);
  }

  /** A value in the signed 24-bit range survives store24() then sint3korr(). */
  lemma Store24Sint3Korr(v: int)
    requires -0x80_0000 <= v < 0x80_0000
    ensures Sint3Korr(Store24(v)) == v
  {
    Store24Uint3Korr(v);
    if v >= 0 {
      DivModUnique(v, Two24, 0, v);
    } else {
      DivModUnique(v, Two24, -1, v + Two24);
    }
  }
}
