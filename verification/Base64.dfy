/** base64_encode and base64_decode (c++/base/base64.cpp). A masked shift of a byte is
    written as a division or a remainder. */
module Base64 {
  import opened Bytes

  const UPPER := "ABCDEFGHIJKLMNOPQRSTUVWXYZ"
  const LOWER := "abcdefghijklmnopqrstuvwxyz"
  const DIGITS := "0123456789+/"
  const BASE64_CHARS: string := UPPER + LOWER + DIGITS

  type sextet = x: int | 0 <= x < 0x40

  /** The alphabet of RFC 4648, section 4. */
  function Letter(k: sextet): char {
    if k < 26 then ('A' as int + k) as char
    else if k < 52 then ('a' as int + k - 26) as char
    else if k < 62 then ('0' as int + k - 52) as char
    else if k == 62 then '+'
    else '/'
  }

  lemma Alphabet()
    ensures |BASE64_CHARS| == 64 && forall k | 0 <= k < 64 :: BASE64_CHARS[k] == Letter(k)
  {
    assert |UPPER| == 26 && |LOWER| == 26 && |DIGITS| == 12;
    assert forall k | 0 <= k < 26 :: UPPER[k] == Letter(k);
    assert forall k | 0 <= k < 26 :: LOWER[k] == Letter(k + 26);
    assert forall k | 0 <= k < 12 :: DIGITS[k] == Letter(k + 52);
  }

  /** is_base64. */
  predicate IsBase64(c: char) {
    'A' <= c <= 'Z' || 'a' <= c <= 'z' || '0' <= c <= '9' || c == '+' || c == '/'
  }

  /** The value of a letter; 255, a truncated npos, for every other character. */
  function Value(c: char): (v: byte)
    ensures IsBase64(c) <==> v < 0x40
  {
    if 'A' <= c <= 'Z' then c as int - 'A' as int
    else if 'a' <= c <= 'z' then c as int - 'a' as int + 26
    else if '0' <= c <= '9' then c as int - '0' as int + 52
    else if c == '+' then 62
    else if c == '/' then 63
    else 255
  }

  // ------------------------------------------------------------------ encoding

  /** The four sextets of 24 bits. */
  function Sextets(v: nat): (x: seq<sextet>)
    requires v < 0x100_0000
    ensures |x| == 4
  {
    [v / 0x4_0000, v / 0x1000 % 0x40, v / 0x40 % 0x40, v % 0x40]
  }

  function Letters(x: seq<sextet>): (s: string)
    ensures |s| == |x| && forall i | 0 <= i < |x| :: s[i] == Letter(x[i])
  {
    if x == [] then "" else [Letter(x[0])] + Letters(x[1..])
  }

  /** The 24 bits of three bytes. */
  function Group(a: byte, b: byte, c: byte): (v: nat)
    ensures v < 0x100_0000
  {
    var high: int, mid: int := a, b;
    high * 0x1_0000 + mid * 0x100 + c
  }

  /** Section 4 of RFC 4648: groups of 24 bits, the last one filled up with zero bits to
      whole sextets and with the pad to four characters. */
  function Encoded(b: seq<byte>): string {
    if |b| == 0 then ""
    else if |b| == 1 then Letters(Sextets(Group(b[0], 0, 0))[..2]) + "=="
    else if |b| == 2 then Letters(Sextets(Group(b[0], b[1], 0))[..3]) + "="
    else Letters(Sextets(Group(b[0], b[1], b[2]))) + Encoded(b[3..])
  }

  /** The length is 4 * ceil(n / 3). */
  lemma {:induction false} EncodedLength(b: seq<byte>)
    ensures |Encoded(b)| == (|b| + 2) / 3 * 4
  {
    if |b| >= 3 {
      EncodedLength(b[3..]);
      assert (|b| + 2) / 3 == (|b[3..]| + 2) / 3 + 1;
    }
  }

  /** What the shifts and masks make of three bytes. */
  function Shifted(a: byte, b: byte, c: byte): (x: seq<sextet>)
    ensures |x| == 4
  {
    [a / 4, a % 4 * 16 + b / 16, b % 16 * 4 + c / 64, c % 64]
  }

  lemma ShiftsSplit(a: byte, b: byte, c: byte)
    ensures Shifted(a, b, c) == Sextets(Group(a, b, c))
  {
    var v: int := Group(a, b, c);
    var high: int, mid: int, low: int := a, b, c;
    Quotient(v, 0x4_0000, high / 4, high % 4 * 0x1_0000 + mid * 0x100 + low);
    Quotient(v, 0x1000, high * 16 + mid / 16, mid % 16 * 0x100 + low);
    Quotient(v, 0x40, high * 0x400 + mid * 4 + low / 64, low % 64);
    Quotient(high * 16 + mid / 16, 0x40, high / 4, high % 4 * 16 + mid / 16);
    Quotient(high * 0x400 + mid * 4 + low / 64, 0x40, high * 16 + mid / 16, mid % 16 * 4 + low / 64);
  }

  lemma {:induction false} LettersOfMore(x: seq<sextet>, y: seq<sextet>)
    ensures Letters(x + y) == Letters(x) + Letters(y)
  {
  }

  /** Encoding goes group by group. */
  lemma {:induction false} EncodedOn(b: seq<byte>, rest: seq<byte>)
    requires |b| % 3 == 0
    ensures Encoded(b + rest) == Encoded(b) + Encoded(rest)
    decreases |b|
  {
    if b == [] {
      assert b + rest == rest;
    } else {
      assert (b + rest)[3..] == b[3..] + rest;
      EncodedOn(b[3..], rest);
    }
  }

  /** The four lines that are in the loop and behind it. */
  method ToSextets(three: array<byte>, four: array<byte>)
    requires three.Length == 3 && four.Length == 4 && three != four
    modifies four
    ensures four[..] == Shifted(three[0], three[1], three[2])
  {
    four[0] := three[0] / 4;
    four[1] := three[0] % 4 * 16 + three[1] / 16;
    four[2] := three[1] % 16 * 4 + three[2] / 64;
    four[3] := three[2] % 64;
  }

  /** The loops that append the first n letters. */
  method AppendLetters(ret: string, four: array<byte>, n: nat, ghost x: seq<sextet>) returns (s: string)
    requires n <= |x| && four.Length == 4 && four[..] == x
    ensures s == ret + Letters(x[..n])
  {
    s := ret;
    var i := 0;
    while i < n
      invariant 0 <= i <= n && s == ret + Letters(x[..i])
    {
      Alphabet();
      assert x[..i + 1] == x[..i] + [x[i]];
      LettersOfMore(x[..i], [x[i]]);
      assert four[i] == x[i];
      s := s + [BASE64_CHARS[four[i]]];
      i := i + 1;
    }
  }

  /** Lines 40 to 56, for one or two bytes. */
  method EncodeTail(ret: string, three: array<byte>, four: array<byte>, i: nat, ghost b: seq<byte>) returns (s: string)
    requires three.Length == 3 && four.Length == 4 && three != four
    requires 1 <= i <= 2 && three[..i] == b
    modifies three, four
    ensures s == ret + Encoded(b)
  {
    var j := i;
    while j < 3
      invariant i <= j <= 3 && three[..i] == b && forall k | i <= k < j :: three[k] == 0
    {
      three[j] := 0;
      j := j + 1;
    }
    assert b[0] == three[0] && (i == 2 ==> b[1] == three[1]);
    ToSextets(three, four);
    ShiftsSplit(three[0], three[1], three[2]);
    s := AppendLetters(ret, four, i + 1, Sextets(Group(three[0], three[1], three[2])));
    j := i;
    ghost var text := s;
    while j < 3
      invariant i <= j <= 3 && s == text + Pad(j - i)
    {
      s := s + "=";
      j := j + 1;
    }
    TailGroup(ret, b);
  }

  /** One round of the loop: the next byte, and the letters of a full group. */
  method EncodeByte(ret: string, three: array<byte>, four: array<byte>, i: nat, c: byte, ghost part: seq<byte>)
    returns (s: string, next: nat)
    requires three.Length == 3 && four.Length == 4 && three != four && i == |part| < 3 && three[..i] == part
    modifies three, four
    ensures i < 2 ==> s == ret && next == i + 1 && three[..next] == part + [c]
    ensures i == 2 ==> s == ret + Letters(Shifted(part[0], part[1], c)) && next == 0
  {
    three[i] := c;
    s, next := ret, i + 1;
    if next == 3 {
      assert three[0] == part[0] && three[1] == part[1];
      ToSextets(three, four);
      s := AppendLetters(ret, four, 4, Shifted(part[0], part[1], c));
      next := 0;
    }
  }

  lemma GroupDone(done: seq<byte>, g: seq<byte>, a: byte, b: byte, c: byte)
    requires |done| % 3 == 0 && g == [a, b, c]
    ensures Encoded(done + g) == Encoded(done) + Letters(Shifted(a, b, c))
  {
    ShiftsSplit(a, b, c);
    OneGroup(done, g);
  }

  /** The bytes of the groups before, and those that are in the array. */
  lemma Grouped(done: seq<byte>, part: seq<byte>, c: byte)
    returns (nowDone: seq<byte>, nowPart: seq<byte>)
    requires |done| % 3 == 0 && |part| < 3
    ensures |nowDone| % 3 == 0 && nowDone + nowPart == done + part + [c]
    ensures |part| < 2 ==> nowDone == done && nowPart == part + [c]
    ensures |part| == 2 ==> nowPart == [] && Encoded(nowDone) == Encoded(done) + Letters(Shifted(part[0], part[1], c))
  {
    nowDone, nowPart := Moved(done, part, c, 3);
    if |part| == 2 {
      GroupDone(done, part + [c], part[0], part[1], c);
    }
  }

  /** A full part goes over to what is done. */
  lemma Moved<T>(done: seq<T>, part: seq<T>, c: T, size: nat)
    returns (nowDone: seq<T>, nowPart: seq<T>)
    requires size > 0 && |done| % size == 0 && |part| < size
    ensures |nowDone| % size == 0 && nowDone + nowPart == done + part + [c]
    ensures |part| < size - 1 ==> nowDone == done && nowPart == part + [c]
    ensures |part| == size - 1 ==> nowPart == [] && nowDone == done + (part + [c])
  {
    nowDone, nowPart := done, part + [c];
    assert done + part + [c] == done + nowPart;
    if |part| == size - 1 {
      nowDone, nowPart := done + nowPart, [];
      OneMore(|done|, size);
    }
  }

  lemma OneMore(n: nat, size: nat)
    requires size > 0 && n % size == 0
    ensures (n + size) % size == 0
  {
    Quotient(n + size, size, n / size + 1, 0);
  }

  method EncodeNext(ret: string, three: array<byte>, four: array<byte>, i: nat, c: byte,
                    ghost done: seq<byte>, ghost part: seq<byte>)
    returns (s: string, next: nat, ghost nowDone: seq<byte>, ghost nowPart: seq<byte>)
    requires three.Length == 3 && four.Length == 4 && three != four && i == |part| < 3 && three[..i] == part
    requires |done| % 3 == 0 && ret == Encoded(done)
    modifies three, four
    ensures |nowDone| % 3 == 0 && s == Encoded(nowDone) && next == |nowPart| < 3 && three[..next] == nowPart
    ensures nowDone + nowPart == done + part + [c]
  {
    s, next := EncodeByte(ret, three, four, i, c, part);
    nowDone, nowPart := Grouped(done, part, c);
  }

  /** base64_encode. */
  method Encode(bytes: seq<byte>) returns (ret: string)
    ensures ret == Encoded(bytes)
  {
    ret := "";
    var i, at := 0, 0;
    var three, four := new byte[3], new byte[4];
    ghost var done, part := [], [];
    while at < |bytes|
      invariant 0 <= at <= |bytes| && done + part == bytes[..at]
      invariant |done| % 3 == 0 && ret == Encoded(done) && i == |part| < 3 && three[..i] == part
    {
      ret, i, done, part := EncodeNext(ret, three, four, i, bytes[at], done, part);
      assert bytes[..at + 1] == bytes[..at] + [bytes[at]];
      at := at + 1;
    }
    assert bytes[..at] == bytes;
    EncodedOn(done, part);
    if i > 0 {
      ret := EncodeTail(ret, three, four, i, part);
    }
  }

  function Pad(n: nat): string {
    if n == 0 then "" else Pad(n - 1) + "="
  }

  lemma OneGroup(before: seq<byte>, g: seq<byte>)
    requires |before| % 3 == 0 && |g| == 3
    ensures Encoded(before + g) == Encoded(before) + Letters(Sextets(Group(g[0], g[1], g[2])))
  {
    EncodedOn(before, g);
    assert g[3..] == [];
  }

  lemma {:induction false} TailGroup(letters: string, b: seq<byte>)
    requires 1 <= |b| <= 2
    ensures letters + Letters(Sextets(Group(b[0], if |b| == 2 then b[1] else 0, 0))[..|b| + 1]) + Pad(3 - |b|)
         == letters + Encoded(b)
  {
    assert Pad(1) == "=" && Pad(2) == "==";
  }

  // ------------------------------------------------------------------ decoding

  /** The three bytes of 24 bits. */
  function Octets(v: nat): (b: seq<byte>)
    requires v < 0x100_0000
    ensures |b| == 3
  {
    [v / 0x1_0000, v / 0x100 % 0x100, v % 0x100]
  }

  /** The 24 bits of four sextets. */
  function Bits(a: sextet, b: sextet, c: sextet, d: sextet): (v: nat)
    ensures v < 0x100_0000
  {
    var x: int, y: int, z: int := a, b, c;
    x * 0x4_0000 + y * 0x1000 + z * 0x40 + d
  }

  /** The whole bytes that a series of sextets contains. */
  function Decoded(x: seq<sextet>): seq<byte> {
    if |x| < 2 then []
    else if |x| == 2 then Octets(Bits(x[0], x[1], 0, 0))[..1]
    else if |x| == 3 then Octets(Bits(x[0], x[1], x[2], 0))[..2]
    else Octets(Bits(x[0], x[1], x[2], x[3])) + Decoded(x[4..])
  }

  /** The characters before the first one that is not of the alphabet. */
  function Leading(s: string): (t: string)
    ensures forall c | c in t :: IsBase64(c)
  {
    if s == "" || !IsBase64(s[0]) then "" else [s[0]] + Leading(s[1..])
  }

  function Values(s: string): (x: seq<sextet>)
    requires forall c | c in s :: IsBase64(c)
    ensures |x| == |s| && forall i | 0 <= i < |s| :: x[i] == Value(s[i])
  {
    if s == "" then []
    else
      var v: sextet := Value(s[0]);
      [v] + Values(s[1..])
  }

  /** What the shifts and masks make of four bytes, cut to eight bits. */
  function Joined(a: byte, b: byte, c: byte, d: byte): (t: seq<byte>)
    ensures |t| == 3
  {
    var x: int, y: int, z: int := a, b, c;
    [(x * 4 + y / 16 % 4) % 0x100, (y % 16 * 16 + z / 4 % 16) % 0x100, (z % 4 * 64 + d) % 0x100]
  }

  lemma NothingCut(x: int, y: int, z: int, w: int)
    requires 0 <= x < 0x40 && 0 <= y < 0x40 && 0 <= z < 0x40 && 0 <= w < 0x40
    ensures Joined(x, y, z, w) == [x * 4 + y / 16, y % 16 * 16 + z / 4, z % 4 * 64 + w]
  {
    InRange(y / 16, 4);
    InRange(x * 4 + y / 16, 0x100);
    InRange(z / 4, 16);
    InRange(y % 16 * 16 + z / 4, 0x100);
    InRange(z % 4 * 64 + w, 0x100);
  }

  lemma InRange(n: int, size: int)
    requires 0 <= n < size
    ensures n % size == n
  {
  }

  lemma JoinedBits(a: sextet, b: sextet, c: sextet, d: sextet)
    ensures Joined(a, b, c, d) == Octets(Bits(a, b, c, d))
  {
    var x: int, y: int, z: int, w: int := a, b, c, d;
    var v: int := Bits(a, b, c, d);
    NothingCut(a, b, c, d);
    Quotient(v, 0x1_0000, x * 4 + y / 16, y % 16 * 0x1000 + z * 0x40 + w);
    Quotient(v, 0x100, x * 0x400 + y * 16 + z / 4, z % 4 * 64 + w);
    Quotient(x * 0x400 + y * 16 + z / 4, 0x100, x * 4 + y / 16, y % 16 * 16 + z / 4);
  }

  function Slot(x: seq<sextet>, k: nat): byte {
    if k < |x| then x[k] else 255
  }

  /** In the last group the unused slots hold 255; the bytes that are kept do not depend on
      them. */
  lemma UnusedSlots(x: seq<sextet>)
    requires 1 <= |x| <= 3
    ensures Joined(x[0], Slot(x, 1), Slot(x, 2), 255)[..|x| - 1] == Decoded(x)
  {
    if |x| >= 2 {
      var b: int, c: int := x[1], if |x| > 2 then x[2] else 0;
      JoinedBits(x[0], b, c, 0);
    }
  }

  lemma {:induction false} DecodedOn(x: seq<sextet>, rest: seq<sextet>)
    requires |x| % 4 == 0
    ensures Decoded(x + rest) == Decoded(x) + Decoded(rest)
    decreases |x|
  {
    if x == [] {
      assert x + rest == rest;
    } else {
      assert (x + rest)[4..] == x[4..] + rest;
      DecodedOn(x[4..], rest);
    }
  }

  lemma LetterOfValue(c: char)
    ensures Value(c) < 0x40 ==> Letter(Value(c)) == c
    ensures Value(c) >= 0x40 ==> Value(c) == 255
  {
  }

  lemma ValueOfLetter(k: sextet)
    ensures Value(Letter(k)) == k
  {
  }

  /** base64_chars.find, with its result cut to a byte. */
  method Find(c: byte) returns (n: byte)
    ensures n == Value(c as char)
  {
    Alphabet();
    LetterOfValue(c as char);
    var k := 0;
    while k < |BASE64_CHARS|
      invariant 0 <= k <= 64 && (IsBase64(c as char) ==> k <= Value(c as char))
    {
      if BASE64_CHARS[k] == c as char {
        ValueOfLetter(k);
        return k;
      }
      k := k + 1;
    }
    n := 255;
  }

  /** The loops that turn four characters into their values. */
  method FindAll(four: array<byte>)
    requires four.Length == 4
    modifies four
    ensures forall k | 0 <= k < 4 :: four[k] == Value(old(four[k]) as char)
  {
    var j := 0;
    while j < 4
      invariant 0 <= j <= 4
      invariant forall k | 0 <= k < j :: four[k] == Value(old(four[k]) as char)
      invariant forall k | j <= k < 4 :: four[k] == old(four[k])
    {
      four[j] := Find(four[j]);
      j := j + 1;
    }
  }

  method ToOctets(four: array<byte>, three: array<byte>)
    requires three.Length == 3 && four.Length == 4 && three != four
    modifies three
    ensures three[..] == Joined(four[0], four[1], four[2], four[3])
  {
    var a: int, b: int, c: int := four[0], four[1], four[2];
    three[0] := (a * 4 + b / 16 % 4) % 0x100;
    three[1] := (b % 16 * 16 + c / 4 % 16) % 0x100;
    three[2] := (c % 4 * 64 + four[3]) % 0x100;
  }

  /** The characters in an array are letters of the alphabet with these values. */
  ghost predicate Hold(four: array<byte>, x: seq<sextet>)
    reads four
  {
    |x| <= four.Length && forall k | 0 <= k < |x| :: four[k] == Letter(x[k]) as int
  }

  /** Lines 87 to 99. */
  method DecodeTail(ret: seq<byte>, four: array<byte>, three: array<byte>, i: nat, ghost x: seq<sextet>)
    returns (s: seq<byte>)
    requires three.Length == 3 && four.Length == 4 && three != four && 1 <= |x| == i <= 3 && Hold(four, x)
    modifies three, four
    ensures s == ret + Decoded(x)
  {
    var j := i;
    while j < 4
      invariant i <= j <= 4 && Hold(four, x) && forall k | i <= k < j :: four[k] == 0
    {
      four[j] := 0;
      j := j + 1;
    }
    forall k | 0 <= k < i
      ensures Value(four[k] as char) == x[k]
    {
      ValueOfLetter(x[k]);
    }
    FindAll(four);
    ToOctets(four, three);
    UnusedSlots(x);
    s := ret;
    j := 0;
    while j < i - 1
      invariant 0 <= j <= i - 1 && s == ret + three[..j]
    {
      s := s + [three[j]];
      j := j + 1;
    }
    assert three[..i - 1] == three[..][..i - 1];
  }

  /** One round of the loop: the next character, and the bytes of a full group. */
  method DecodeChar(ret: seq<byte>, four: array<byte>, three: array<byte>, i: nat, c: char, ghost part: seq<sextet>)
    returns (s: seq<byte>, next: nat)
    requires three.Length == 3 && four.Length == 4 && three != four && IsBase64(c)
    requires i == |part| < 4 && Hold(four, part)
    modifies three, four
    ensures i < 3 ==> s == ret && next == i + 1 && Hold(four, part + [Value(c)])
    ensures i == 3 ==> s == ret + Joined(part[0], part[1], part[2], Value(c)) && next == 0
  {
    four[i] := c as int;
    LetterOfValue(c);
    s, next := ret, i + 1;
    if next == 4 {
      ValueOfLetter(part[0]);
      ValueOfLetter(part[1]);
      ValueOfLetter(part[2]);
      FindAll(four);
      ToOctets(four, three);
      next := 0;
      while next < 3
        invariant 0 <= next <= 3 && s == ret + three[..next]
      {
        s := s + [three[next]];
        next := next + 1;
      }
      assert three[..3] == three[..];
      next := 0;
    }
  }

  lemma FourDone(done: seq<sextet>, x: seq<sextet>, a: sextet, b: sextet, c: sextet, d: sextet)
    requires |done| % 4 == 0 && x == [a, b, c, d]
    ensures Decoded(done + x) == Decoded(done) + Joined(a, b, c, d)
  {
    JoinedBits(a, b, c, d);
    DecodedOn(done, x);
    assert x[4..] == [];
  }

  /** The sextets of the groups before, and those that are in the array. */
  lemma Regrouped(done: seq<sextet>, part: seq<sextet>, d: sextet)
    returns (nowDone: seq<sextet>, nowPart: seq<sextet>)
    requires |done| % 4 == 0 && |part| < 4
    ensures |nowDone| % 4 == 0 && nowDone + nowPart == done + part + [d]
    ensures |part| < 3 ==> nowDone == done && nowPart == part + [d]
    ensures |part| == 3 ==> nowPart == [] && Decoded(nowDone) == Decoded(done) + Joined(part[0], part[1], part[2], d)
  {
    nowDone, nowPart := Moved(done, part, d, 4);
    if |part| == 3 {
      FourDone(done, part + [d], part[0], part[1], part[2], d);
    }
  }

  lemma {:induction false} LeadingPart(s: string, n: nat)
    requires n <= |s| && forall i | 0 <= i < n :: IsBase64(s[i])
    requires n < |s| ==> !IsBase64(s[n])
    ensures Leading(s) == s[..n]
  {
    if n > 0 {
      LeadingPart(s[1..], n - 1);
      assert s[..n] == [s[0]] + s[1..][..n - 1];
    }
  }

  lemma {:induction false} ValuesOfLeading(s: string, x: seq<sextet>)
    requires |x| <= |s| && forall i | 0 <= i < |x| :: x[i] == Value(s[i])
    requires |x| < |s| ==> !IsBase64(s[|x|])
    ensures Values(Leading(s)) == x
  {
    LeadingPart(s, |x|);
  }

  method DecodeNext(ret: seq<byte>, four: array<byte>, three: array<byte>, i: nat, c: char,
                    ghost done: seq<sextet>, ghost part: seq<sextet>)
    returns (s: seq<byte>, next: nat, ghost nowDone: seq<sextet>, ghost nowPart: seq<sextet>)
    requires three.Length == 3 && four.Length == 4 && three != four && IsBase64(c)
    requires i == |part| < 4 && Hold(four, part) && |done| % 4 == 0 && ret == Decoded(done)
    modifies three, four
    ensures |nowDone| % 4 == 0 && s == Decoded(nowDone) && next == |nowPart| < 4 && Hold(four, nowPart)
    ensures nowDone + nowPart == done + part + [Value(c)]
  {
    s, next := DecodeChar(ret, four, three, i, c, part);
    nowDone, nowPart := Regrouped(done, part, Value(c));
  }

  method DecodeEnd(ret: seq<byte>, four: array<byte>, three: array<byte>, i: nat,
                   ghost done: seq<sextet>, ghost part: seq<sextet>)
    returns (s: seq<byte>)
    requires three.Length == 3 && four.Length == 4 && three != four
    requires i == |part| < 4 && Hold(four, part) && |done| % 4 == 0 && ret == Decoded(done)
    modifies three, four
    ensures s == Decoded(done + part)
  {
    s := ret;
    DecodedOn(done, part);
    if i > 0 {
      s := DecodeTail(ret, four, three, i, part);
    }
  }

  /** base64_decode: of any string it decodes what comes before the first character that is
      not of the alphabet. */
  method Decode(encoded: string) returns (ret: seq<byte>)
    ensures ret == Decoded(Values(Leading(encoded)))
  {
    ret := [];
    var i, at := 0, 0;
    var three, four := new byte[3], new byte[4];
    ghost var done, part, seen: seq<sextet> := [], [], [];
    while at < |encoded| && encoded[at] != '=' && IsBase64(encoded[at])
      invariant |seen| == at <= |encoded| && forall k | 0 <= k < at :: seen[k] == Value(encoded[k])
      invariant done + part == seen
      invariant |done| % 4 == 0 && ret == Decoded(done) && i == |part| < 4 && Hold(four, part)
    {
      ret, i, done, part := DecodeNext(ret, four, three, i, encoded[at], done, part);
      seen := seen + [Value(encoded[at])];
      at := at + 1;
    }
    ValuesOfLeading(encoded, seen);
    ret := DecodeEnd(ret, four, three, i, done, part);
  }

  // ---------------------------------------------------------------- round trip

  lemma BitsOfSextets(v: nat)
    requires v < 0x100_0000
    ensures var x := Sextets(v); Bits(x[0], x[1], x[2], x[3]) == v
  {
    Nested(v, 0x40, 0x40);
    Nested(v, 0x1000, 0x40);
  }

  lemma OctetsOfGroup(a: byte, b: byte, c: byte)
    ensures Octets(Group(a, b, c)) == [a, b, c]
  {
    var x: int, y: int, z: int := a, b, c;
    Quotient(x * 0x1_0000 + y * 0x100 + z, 0x1_0000, x, y * 0x100 + z);
    Quotient(x * 0x1_0000 + y * 0x100 + z, 0x100, x * 0x100 + y, z);
  }

  lemma LeadingLetters(x: seq<sextet>, rest: string)
    ensures Leading(Letters(x) + rest) == Letters(x) + Leading(rest)
    ensures forall c | c in Letters(x) :: IsBase64(c)
    ensures Values(Letters(x)) == x
  {
    forall i | 0 <= i < |x|
      ensures IsBase64(Letters(x)[i]) && Value(Letters(x)[i]) == x[i]
    {
      ValueOfLetter(x[i]);
    }
    LeadingGoesOn(Letters(x), rest);
  }

  lemma {:induction false} LeadingGoesOn(s: string, rest: string)
    requires forall c | c in s :: IsBase64(c)
    ensures Leading(s + rest) == s + Leading(rest)
  {
    if s == "" {
      assert s + rest == rest;
    } else {
      assert (s + rest)[1..] == s[1..] + rest;
      LeadingGoesOn(s[1..], rest);
    }
  }

  /** The sextets of an encoding. */
  function SextetsOf(b: seq<byte>): seq<sextet> {
    if |b| == 0 then []
    else if |b| == 1 then Sextets(Group(b[0], 0, 0))[..2]
    else if |b| == 2 then Sextets(Group(b[0], b[1], 0))[..3]
    else Sextets(Group(b[0], b[1], b[2])) + SextetsOf(b[3..])
  }

  lemma {:induction false} LeadingOfEncoded(b: seq<byte>)
    ensures Leading(Encoded(b)) == Letters(SextetsOf(b))
  {
    if |b| == 0 {
    } else if |b| == 1 {
      LeadingLetters(SextetsOf(b), "==");
    } else if |b| == 2 {
      LeadingLetters(SextetsOf(b), "=");
    } else {
      var x := Sextets(Group(b[0], b[1], b[2]));
      LeadingOfEncoded(b[3..]);
      LeadingLetters(x, Encoded(b[3..]));
      LettersOfMore(x, SextetsOf(b[3..]));
    }
  }

  lemma {:induction false} DecodedSextets(b: seq<byte>)
    ensures Decoded(SextetsOf(b)) == b
  {
    if b != [] {
      var b1, b2 := if |b| > 1 then b[1] else 0, if |b| > 2 then b[2] else 0;
      var x := Sextets(Group(b[0], b1, b2));
      BitsOfSextets(Group(b[0], b1, b2));
      OctetsOfGroup(b[0], b1, b2);
      if |b| >= 3 {
        DecodedSextets(b[3..]);
        assert (x + SextetsOf(b[3..]))[4..] == SextetsOf(b[3..]);
      } else {
        UnusedBits(b[0], b1);
      }
    }
  }

  /** Without the sextets that the pad stands for the same bytes come out. */
  lemma UnusedBits(a: byte, b: byte)
    ensures Decoded(Sextets(Group(a, 0, 0))[..2]) == [a]
    ensures Decoded(Sextets(Group(a, b, 0))[..3]) == [a, b]
  {
    ShiftsSplit(a, 0, 0);
    ShiftsSplit(a, b, 0);
    BitsOfSextets(Group(a, 0, 0));
    BitsOfSextets(Group(a, b, 0));
    OctetsOfGroup(a, 0, 0);
    OctetsOfGroup(a, b, 0);
  }

  /** Decoding an encoding gives back the bytes, whatever they are. */
  lemma RoundTrip(b: seq<byte>)
    ensures Decoded(Values(Leading(Encoded(b)))) == b
  {
    LeadingOfEncoded(b);
    LeadingLetters(SextetsOf(b), "");
    DecodedSextets(b);
  }

  // ---------------------------------------------------------------- bit by bit

  /** One of a series of numbers, and zero behind their end. */
  function At(s: seq<byte>, i: nat): byte {
    if i < |s| then s[i] else 0
  }

  /** The bits r up to r + 6 of two bytes, for an even r. */
  function Six(a: byte, b: byte, r: nat): sextet {
    var x: int := a;
    (x * 0x100 + b) / (if r == 0 then 0x400 else if r == 2 then 0x100 else if r == 4 then 0x40 else 0x10) % 0x40
  }

  /** The six bits that begin at bit k of the bytes. */
  function SixBits(b: seq<byte>, k: nat): sextet {
    Six(At(b, k / 8), At(b, k / 8 + 1), k % 8)
  }

  /** The bits r up to r + 8 of two sextets, for an even r. */
  function Eight(a: sextet, b: sextet, r: nat): byte {
    var x: int := a;
    (x * 0x40 + b) / (if r == 0 then 0x10 else if r == 2 then 4 else 1) % 0x100
  }

  function EightBits(x: seq<sextet>, k: nat): byte {
    Eight(At(x, k / 6), At(x, k / 6 + 1), k % 6)
  }

  lemma SixOf(a: byte, b: byte)
    ensures Six(a, b, 0) == a / 4 && Six(a, b, 2) == a % 0x40
    ensures Six(a, b, 4) == a % 16 * 4 + b / 64 && Six(a, b, 6) == a % 4 * 16 + b / 16
  {
    var x: int, y: int := a, b;
    Quotient(x * 0x100 + y, 0x400, x / 4, x % 4 * 0x100 + y);
    InRange(x / 4, 0x40);
    Quotient(x * 0x100 + y, 0x100, x, y);
    Quotient(x * 0x100 + y, 0x40, x * 4 + y / 64, y % 64);
    Quotient(x * 4 + y / 64, 0x40, x / 16, x % 16 * 4 + y / 64);
    Quotient(x * 0x100 + y, 0x10, x * 16 + y / 16, y % 16);
    Quotient(x * 16 + y / 16, 0x40, x / 4, x % 4 * 16 + y / 16);
  }

  lemma EightOf(a: sextet, b: sextet)
    ensures Eight(a, b, 0) == a * 4 + b / 16 && Eight(a, b, 4) == a % 4 * 0x40 + b
    ensures Eight(a, b, 2) == a % 16 * 16 + b / 4
  {
    var x: int, y: int := a, b;
    Quotient(x * 0x40 + y, 0x10, x * 4 + y / 16, y % 16);
    InRange(x * 4 + y / 16, 0x100);
    Quotient(x * 0x40 + y, 4, x * 16 + y / 4, y % 4);
    Quotient(x * 16 + y / 4, 0x100, x / 16, x % 16 * 16 + y / 4);
    Quotient(x * 0x40 + y, 0x100, x / 4, x % 4 * 0x40 + y);
  }

  lemma SixBitsAre(b: seq<byte>)
    ensures SixBits(b, 0) == Six(At(b, 0), At(b, 1), 0) && SixBits(b, 6) == Six(At(b, 0), At(b, 1), 6)
    ensures SixBits(b, 12) == Six(At(b, 1), At(b, 2), 4) && SixBits(b, 18) == Six(At(b, 2), At(b, 3), 2)
  {
    assert 12 / 8 == 1 && 12 % 8 == 4 && 18 / 8 == 2 && 18 % 8 == 2;
  }

  lemma FirstLetters(b: seq<byte>)
    requires b != []
    ensures Sextets(Group(b[0], At(b, 1), At(b, 2))) == [SixBits(b, 0), SixBits(b, 6), SixBits(b, 12), SixBits(b, 18)]
  {
    SixBitsAre(b);
    ShiftsSplit(b[0], At(b, 1), At(b, 2));
    ShiftedSix(b[0], At(b, 1), At(b, 2), At(b, 3));
  }

  lemma ShiftedSix(a: byte, b: byte, c: byte, d: byte)
    ensures Shifted(a, b, c) == [Six(a, b, 0), Six(a, b, 6), Six(b, c, 4), Six(c, d, 2)]
  {
    SixOf(a, b);
    SixOf(b, c);
    SixOf(c, d);
  }

  lemma FurtherBits(b: seq<byte>, i: nat)
    requires |b| >= 3 && i >= 4
    ensures SixBits(b[3..], 6 * (i - 4)) == SixBits(b, 6 * i)
  {
    var k := 6 * (i - 4);
    assert 6 * i == k + 24 && (k + 24) / 8 == k / 8 + 3 && (k + 24) % 8 == k % 8;
  }

  /** The letters of the first group. */
  lemma {:induction false} HeadLetters(b: seq<byte>)
    requires b != []
    ensures var x := Sextets(Group(b[0], At(b, 1), At(b, 2)));
            && Encoded(b)[0] == Letter(x[0]) && Encoded(b)[1] == Letter(x[1])
            && Encoded(b)[2] == (if |b| > 1 then Letter(x[2]) else '=')
            && Encoded(b)[3] == (if |b| > 2 then Letter(x[3]) else '=')
  {
  }

  lemma {:induction false} HeadLetterAt(b: seq<byte>, i: nat)
    requires b != [] && i < 4
    ensures Encoded(b)[i] == if 6 * i < 8 * |b| then Letter(SixBits(b, 6 * i)) else '='
  {
    HeadLetters(b);
    FirstLetters(b);
    assert 6 * i < 8 * |b| <==> i <= |b|;
  }

  /** Letter by letter: the i-th letter stands for the six bits from bit 6 i of the bytes on,
      zero bits behind their end, and what begins behind the end is the pad. */
  lemma {:induction false} LetterAt(b: seq<byte>, i: nat)
    requires i < |Encoded(b)|
    ensures Encoded(b)[i] == if 6 * i < 8 * |b| then Letter(SixBits(b, 6 * i)) else '='
    decreases |b|
  {
    if i >= 4 {
      LetterAt(b[3..], i - 4);
      FurtherBits(b, i);
    } else {
      HeadLetterAt(b, i);
    }
  }

  lemma EightBitsAre(x: seq<sextet>)
    ensures EightBits(x, 0) == Eight(At(x, 0), At(x, 1), 0) && EightBits(x, 8) == Eight(At(x, 1), At(x, 2), 2)
    ensures EightBits(x, 16) == Eight(At(x, 2), At(x, 3), 4)
  {
    assert 8 / 6 == 1 && 8 % 6 == 2 && 16 / 6 == 2 && 16 % 6 == 4;
  }

  lemma FirstBytes(x: seq<sextet>)
    requires x != []
    ensures Octets(Bits(x[0], At(x, 1), At(x, 2), At(x, 3))) == [EightBits(x, 0), EightBits(x, 8), EightBits(x, 16)]
  {
    EightBitsAre(x);
    JoinedBits(x[0], At(x, 1), At(x, 2), At(x, 3));
    JoinedEight(x[0], At(x, 1), At(x, 2), At(x, 3));
  }

  lemma JoinedEight(a: sextet, b: sextet, c: sextet, d: sextet)
    ensures Joined(a, b, c, d) == [Eight(a, b, 0), Eight(b, c, 2), Eight(c, d, 4)]
  {
    NothingCut(a, b, c, d);
    EightOf(a, b);
    EightOf(b, c);
    EightOf(c, d);
  }

  lemma FurtherBytes(x: seq<sextet>, j: nat)
    requires |x| >= 4 && j >= 3
    ensures EightBits(x[4..], 8 * (j - 3)) == EightBits(x, 8 * j)
  {
    var k := 8 * (j - 3);
    assert 8 * j == k + 24 && (k + 24) / 6 == k / 6 + 4 && (k + 24) % 6 == k % 6;
  }

  /** Byte by byte: there are as many as whole bytes in the sextets, and the j-th is made of the
      eight bits from bit 8 j of the sextets on. */
  lemma {:induction false} ByteAt(x: seq<sextet>, j: nat)
    ensures |Decoded(x)| == 6 * |x| / 8
    ensures j < |Decoded(x)| ==> Decoded(x)[j] == EightBits(x, 8 * j)
    decreases |x|
  {
    if |x| >= 4 {
      ByteAt(x[4..], if j >= 3 then j - 3 else 0);
      assert 6 * |x| / 8 == 6 * |x[4..]| / 8 + 3;
      if j >= 3 {
        FurtherBytes(x, j);
      }
    }
    if x != [] {
      FirstBytes(x);
    }
  }

  lemma LetterIsBase64(k: sextet)
    ensures IsBase64(Letter(k))
  {
  }

  lemma LetterOrNot(c: char)
    ensures c in BASE64_CHARS <==> IsBase64(c)
  {
    var chars := BASE64_CHARS;
    Alphabet();
    if IsBase64(c) {
      LetterOfValue(c);
      assert chars[Value(c)] == c;
    } else if c in chars {
      var k :| 0 <= k < |chars| && chars[k] == c;
      LetterIsBase64(k);
    }
  }

  /** What is decoded is the longest part of the text that begins with it and has letters of the
      alphabet only. */
  lemma {:induction false} LeadingExactly(s: string)
    ensures Leading(s) <= s && forall c | c in Leading(s) :: c in BASE64_CHARS
    ensures Leading(s) == s || s[|Leading(s)|] !in BASE64_CHARS
  {
    if s != "" {
      LetterOrNot(s[0]);
      LeadingExactly(s[1..]);
      assert s == [s[0]] + s[1..];
    }
  }
}
