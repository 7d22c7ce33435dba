/** Bytes and the fixed-width integers of the protocol (c++/base/UtilPdu.cpp:87-139). */
module Bytes {
  type byte = x: int | 0 <= x < 0x100
  type uint16 = x: int | 0 <= x < 0x1_0000
  type uint32 = x: int | 0 <= x < 0x1_0000_0000

  /** The wrap-around of uint32_t arithmetic. */
  function ToUint32(x: int): uint32 {
    x % 0x1_0000_0000
  }

  /** The same 32 bits read as an int32_t. */
  function ToInt32(x: uint32): int {
    if x < 0x8000_0000 then x else x - 0x1_0000_0000
  }

  /** Big-endian bytes of the low 16 bits. */
  function Be16(x: int): (s: seq<byte>)
    ensures |s| == 2
  {
    [x / 0x100 % 0x100, x % 0x100]
  }

  /** Big-endian bytes of the low 32 bits. */
  function Be32(x: int): (s: seq<byte>)
    ensures |s| == 4
  {
    [x / 0x100_0000 % 0x100, x / 0x1_0000 % 0x100, x / 0x100 % 0x100, x % 0x100]
  }

  /** The 16-bit number whose bytes start at a position. */
  function FromBe16(s: seq<byte>, at: nat): uint16
    requires at + 2 <= |s|
  {
    var a: int := s[at];
    a * 0x100 + s[at + 1]
  }

  /** The 32-bit number whose bytes start at a position. */
  function FromBe32(s: seq<byte>, at: nat): uint32
    requires at + 4 <= |s|
  {
    var a: int, b: int, c: int := s[at], s[at + 1], s[at + 2];
    a * 0x100_0000 + b * 0x1_0000 + c * 0x100 + s[at + 3]
  }

  /** Reading gives exactly the number whose big-endian bytes are there. */
  lemma Coding16(s: seq<byte>, at: nat, x: uint16)
    requires at + 2 <= |s|
    ensures FromBe16(s, at) == x <==> s[at..at + 2] == Be16(x)
  {
    assert s[at..at + 2] == [s[at], s[at + 1]];
  }

  /** Reading gives exactly the number whose big-endian bytes are there. */
  lemma Coding32(s: seq<byte>, at: nat, x: uint32)
    requires at + 4 <= |s|
    ensures FromBe32(s, at) == x <==> s[at..at + 4] == Be32(x)
  {
    assert s[at..at + 4] == [s[at], s[at + 1], s[at + 2], s[at + 3]];
    Digits(x);
    Quotients(s[at], s[at + 1], s[at + 2], s[at + 3]);
  }

  lemma Digits(x: uint32)
    ensures x / 0x100_0000 % 0x100 == x / 0x100_0000
    ensures x == x / 0x100_0000 * 0x100_0000 + x / 0x1_0000 % 0x100 * 0x1_0000 + x / 0x100 % 0x100 * 0x100 + x % 0x100
  {
    Nested(x, 0x100, 0x100);
    Nested(x, 0x1_0000, 0x100);
  }

  lemma Nested(x: int, m: int, n: int)
    requires m > 0 && n > 0
    ensures m * n > 0 && x / (m * n) == x / m / n
  {
    var q, r := x / m / n, x / m % n;
    assert x == (q * n + r) * m + x % m;
    assert x == q * (m * n) + (r * m + x % m);
    Bounded(r, x % m, m, n);
    Quotient(x, m * n, q, r * m + x % m);
  }

  lemma Bounded(r: int, k: int, m: int, n: int)
    requires 0 <= r < n && 0 <= k < m
    ensures 0 <= r * m + k < m * n
  {
    assert r * m <= (n - 1) * m;
  }

  lemma Quotient(x: int, m: int, q: int, r: int)
    requires 0 <= r < m && x == q * m + r
    ensures x / m == q && x % m == r
  {
    var e, f := x / m, x % m;
    assert x == e * m + f;
    assert (e - q) * m == e * m - q * m;
    SmallMultiple(e - q, m);
  }

  lemma SmallMultiple(d: int, m: int)
    requires -m < d * m < m
    ensures d == 0
  {
  }

  lemma Quotients(a: int, b: int, c: int, d: int)
    requires 0 <= a < 0x100 && 0 <= b < 0x100 && 0 <= c < 0x100 && 0 <= d < 0x100
    ensures Be32(a * 0x100_0000 + b * 0x1_0000 + c * 0x100 + d) == [a, b, c, d]
  {
    var x := a * 0x100_0000 + b * 0x1_0000 + c * 0x100 + d;
    Quotient(x, 0x100, a * 0x1_0000 + b * 0x100 + c, d);
    Quotient(x, 0x1_0000, a * 0x100 + b, c * 0x100 + d);
    Quotient(x, 0x100_0000, a, b * 0x1_0000 + c * 0x100 + d);
  }

  /** WriteInt32, given a length that went through int32_t, stores the bytes that
      WriteUint32 would have stored. */
  lemma SignedBytes(x: uint32)
    ensures Be32(ToInt32(x)) == Be32(x)
  {
    Shifted(x, 0x100_0000, 1);
    Shifted(x, 0x1_0000, 0x100);
    Shifted(x, 0x100, 0x1_0000);
    Shifted(x, 1, 0x100_0000);
  }

  lemma Shifted(x: int, m: int, k: int)
    requires m > 0 && m * k == 0x100_0000
    ensures (x - 0x1_0000_0000) / m % 0x100 == x / m % 0x100
  {
    assert x - 0x1_0000_0000 == (x / m - 0x100 * k) * m + x % m by {
      assert x == x / m * m + x % m && 0x100 * k * m == 0x1_0000_0000;
    }
    Quotient(x - 0x1_0000_0000, m, x / m - 0x100 * k, x % m);
    Quotient(x / m - 0x100 * k, 0x100, x / m / 0x100 - k, x / m % 0x100);
  }
}
