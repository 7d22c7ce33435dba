/** How parse_string reads escapes (c++/base/cJSON.c:143-200): its two passes, and its
    UTF-16 and UTF-8 arithmetic against RFC 2781 and RFC 3629. */
module JsonUnicode {
  import opened Options
  import opened JsonText
  import opened JsonParse

  // ------------------------------------------------------------- two passes

  /** The first pass: how many bytes it counts, and where it stops. */
  function Scan(p: string): (r: Result<nat>)
    ensures r.Ok? ==> |r.rest| <= |p|
    decreases |p|
  {
    if Peek(p) == '\0' || p[0] == '\"' then Ok(0, p)
    else if p[0] != '\\' then Counted(Scan(p[1..]))
    else if Peek(p[1..]) == '\0' then Outside
    else Counted(Scan(p[2..]))
  }

  function Counted(r: Result<nat>): Result<nat> {
    match r
    case Ok(n, rest) => Ok(n + 1, rest)
    case _ => r
  }

  /** Up to the closing quote every backslash has a character behind it and every `\u`
      has four hexadecimal digits, as the first pass divides the text. */
  predicate CompleteEscapes(p: string)
    decreases |p|
  {
    if Peek(p) == '\0' || p[0] == '\"' then true
    else if p[0] != '\\' then CompleteEscapes(p[1..])
    else Peek(p[1..]) != '\0' && (p[1] == 'u' ==> FourHex(p[2..])) && CompleteEscapes(p[2..])
  }

  /** The text behind the string: past the closing quote when there is one. */
  function Closed(p: string): string {
    if Peek(p) == '\"' then p[1..] else p
  }

  lemma HexStep(p: string)
    requires IsHex(Peek(p))
    ensures CompleteEscapes(p) == CompleteEscapes(p[1..])
    ensures Scan(p) == Counted(Scan(p[1..]))
  {
  }

  lemma HexIsPlain(p: string)
    requires FourHex(p)
    ensures CompleteEscapes(p) == CompleteEscapes(p[4..])
    ensures Scan(p) == Counted(Counted(Counted(Counted(Scan(p[4..])))))
  {
    assert p[1..][1..] == p[2..] && p[2..][1..] == p[3..] && p[3..][1..] == p[4..];
    HexStep(p);
    HexStep(p[1..]);
    HexStep(p[2..]);
    HexStep(p[3..]);
  }

  /** The second pass succeeds exactly on complete escapes; it then stops where the
      first pass stopped, and what it writes fits the bytes the first pass counted. */
  lemma {:induction false} PassesAgree(p: string)
    ensures Unescape(p).Ok? <==> CompleteEscapes(p)
    ensures Unescape(p).Ok? ==>
              && Scan(p).Ok?
              && Unescape(p).rest == Closed(Scan(p).rest)
              && |Unescape(p).value| <= Scan(p).value
    decreases |p|
  {
    if Peek(p) == '\0' || p[0] == '\"' {
    } else if p[0] != '\\' {
      PassesAgree(p[1..]);
    } else if Peek(p[1..]) != '\0' {
      if p[1] != 'u' {
        PassesAgree(p[2..]);
      } else if FourHex(p[2..]) {
        UnicodePassesAgree(p[2..]);
      }
    }
  }

  /** What a `\u` escape writes fits the bytes that the first pass counted for it. */
  lemma UnicodeFits(q: string)
    requires UnicodeEscape(q).Ok? && Scan(q).Ok?
    ensures var e := UnicodeEscape(q);
            && Scan(e.rest).Ok?
            && Scan(e.rest).rest == Scan(q).rest
            && |e.value| + Scan(e.rest).value <= Scan(q).value
  {
    var p := q[4..];
    HexIsPlain(q);
    if IsHighSurrogate(Hex4(q)) && Peek(p) == '\\' && Peek(p[1..]) == 'u' {
      assert q[5..] == p[1..] && q[6..] == p[2..];
      HexIsPlain(p[2..]);
      assert q[10..] == p[2..][4..];
    }
  }

  lemma {:induction false} UnicodePassesAgree(q: string)
    requires FourHex(q)
    ensures var e := UnicodeEscape(q);
            (e.Ok? && Unescape(e.rest).Ok?) <==> CompleteEscapes(q)
    ensures var e := UnicodeEscape(q);
            e.Ok? && Unescape(e.rest).Ok? ==>
              && Scan(q).Ok?
              && Unescape(e.rest).rest == Closed(Scan(q).rest)
              && |e.value + Unescape(e.rest).value| <= Scan(q).value
    decreases |q|
  {
    var p := q[4..];
    HexIsPlain(q);
    if IsHighSurrogate(Hex4(q)) && Peek(p) == '\\' && Peek(p[1..]) == 'u' {
      assert q[5..] == p[1..] && q[6..] == p[2..];
      if FourHex(p[2..]) {
        HexIsPlain(p[2..]);
        assert q[10..] == p[2..][4..];
        PassesAgree(q[10..]);
      }
    } else {
      PassesAgree(p);
    }
    if UnicodeEscape(q).Ok? && Scan(q).Ok? {
      UnicodeFits(q);
    }
  }

  // ------------------------------------------------------------------ UTF-8

  /** Section 3 of RFC 3629 read as a decoder: the code point that a byte sequence
      stands for, if it is well-formed and of the shortest form. */
  function Utf8Meaning(b: seq<int>): Option<int> {
    if |b| == 1 && 0 <= b[0] < 0x80 then Some(b[0])
    else if |b| == 2 && 0xC0 <= b[0] < 0xE0 && IsTail(b[1]) then
      AtLeast(0x80, (b[0] - 0xC0) * 0x40 + (b[1] - 0x80))
    else if |b| == 3 && 0xE0 <= b[0] < 0xF0 && IsTail(b[1]) && IsTail(b[2]) then
      AtLeast(0x800, (b[0] - 0xE0) * 0x1000 + (b[1] - 0x80) * 0x40 + (b[2] - 0x80))
    else if |b| == 4 && 0xF0 <= b[0] < 0xF8 && IsTail(b[1]) && IsTail(b[2]) && IsTail(b[3]) then
      AtLeast(0x1_0000,
              (b[0] - 0xF0) * 0x4_0000 + (b[1] - 0x80) * 0x1000 + (b[2] - 0x80) * 0x40 + (b[3] - 0x80))
    else None
  }

  predicate IsTail(b: int) {
    0x80 <= b < 0xC0
  }

  function AtLeast(least: int, cp: int): Option<int> {
    if cp >= least then Some(cp) else None
  }

  function ByteValues(s: string): seq<int> {
    seq(|s|, i requires 0 <= i < |s| => s[i] as int)
  }

  lemma ShiftOut(uc: nat)
    ensures uc == uc / 0x40 * 0x40 + uc % 0x40
    ensures uc / 0x1000 == uc / 0x40 / 0x40 && uc / 0x4_0000 == uc / 0x40 / 0x40 / 0x40
  {
  }

  lemma ThreeByteMeaning(uc: int)
    requires 0x800 <= uc < 0x1_0000
    ensures Utf8Meaning(ByteValues(Utf8(uc))) == Some(uc)
  {
    ShiftOut(uc);
    ShiftOut(uc / 0x40);
    assert ByteValues(Utf8(uc)) == [0xE0 + uc / 0x1000, 0x80 + uc / 0x40 % 0x40, 0x80 + uc % 0x40];
  }

  lemma FourByteMeaning(uc: int)
    requires 0x1_0000 <= uc < 0x11_0000
    ensures Utf8Meaning(ByteValues(Utf8(uc))) == Some(uc)
  {
    ShiftOut(uc);
    ShiftOut(uc / 0x40);
    ShiftOut(uc / 0x1000);
    assert ByteValues(Utf8(uc)) ==
           [0xF0 + uc / 0x4_0000, 0x80 + uc / 0x1000 % 0x40, 0x80 + uc / 0x40 % 0x40, 0x80 + uc % 0x40];
  }

  /** Every code point is written in the standard's one way. */
  lemma Utf8IsStandard(uc: int)
    requires 0 <= uc < 0x11_0000
    ensures Utf8Meaning(ByteValues(Utf8(uc))) == Some(uc)
  {
    if uc < 0x80 {
      assert ByteValues(Utf8(uc)) == [uc];
    } else if uc < 0x800 {
      ShiftOut(uc);
      assert ByteValues(Utf8(uc)) == [0xC0 + uc / 0x40, 0x80 + uc % 0x40];
    } else if uc < 0x1_0000 {
      ThreeByteMeaning(uc);
    } else {
      FourByteMeaning(uc);
    }
  }

  // ----------------------------------------------------------------- UTF-16

  /** Section 2.2 of RFC 2781: ten bits from each half, plus 0x10000. */
  function SurrogatePair(w1: int, w2: int): int
    requires IsHighSurrogate(w1) && IsLowSurrogate(w2)
  {
    0x1_0000 + (w1 - 0xD800) * 0x400 + (w2 - 0xDC00)
  }

  /** The joined pair is the standard's code point exactly when bit 0x40 of the high
      half is clear; otherwise it falls short by 0x10000. */
  lemma SurrogatesAgree(uc: int, uc2: int)
    requires IsHighSurrogate(uc) && IsLowSurrogate(uc2)
    ensures JoinSurrogates(uc, uc2) == SurrogatePair(uc, uc2) <==> uc / 0x40 % 2 == 0
    ensures uc / 0x40 % 2 == 1 ==> JoinSurrogates(uc, uc2) == SurrogatePair(uc, uc2) - 0x1_0000
  {
    var high, low := uc - 0xD800, uc2 - 0xDC00;
    assert uc % 0x400 == high && uc2 % 0x400 == low;
    assert (high * 0x400 + low) / 0x1_0000 == high / 0x40;
    assert uc / 0x40 == 0x360 + high / 0x40;
  }

  /** U+20000 is written as the pair D840 DC00 and comes back as U+10000. */
  lemma SurrogatesFail()
    ensures SurrogatePair(0xD840, 0xDC00) == 0x2_0000
    ensures JoinSurrogates(0xD840, 0xDC00) == 0x1_0000
  {
  }

  // ---------------------------------------------------------- whole escapes

  /** The code point of the escape whose digits start at s, for a pair included. */
  function EscapeMeaning(s: string): Option<int>
    requires FourHex(s)
  {
    var uc := Hex4(s);
    if uc == 0 || IsLowSurrogate(uc) then None
    else if !IsHighSurrogate(uc) then Some(uc)
    else if |s| >= 6 && s[4..6] == "\\u" && FourHex(s[6..]) && IsLowSurrogate(Hex4(s[6..])) then
      Some(SurrogatePair(uc, Hex4(s[6..])))
    else None
  }

  /** An escape with a meaning becomes the UTF-8 text of its code point, except for a
      pair whose high half has bit 0x40 set. */
  lemma EscapeIsTranscoded(s: string)
    requires FourHex(s) && EscapeMeaning(s).Some?
    ensures var e := UnicodeEscape(s);
            && e.Ok?
            && (Utf8Meaning(ByteValues(e.value)) == EscapeMeaning(s)
                <==> (IsHighSurrogate(Hex4(s)) ==> Hex4(s) / 0x40 % 2 == 0))
  {
    var uc := Hex4(s);
    if IsHighSurrogate(uc) {
      assert s[4..6] == [s[4], s[5]];
      assert s[4] == '\\' && s[5] == 'u';
      SurrogatesAgree(uc, Hex4(s[6..]));
      Utf8IsStandard(JoinSurrogates(uc, Hex4(s[6..])));
    } else {
      Utf8IsStandard(uc);
    }
  }

  /** An escape without a meaning (NUL, a lone half) writes nothing. */
  lemma MeaninglessEscapeIsDropped(s: string)
    requires FourHex(s) && EscapeMeaning(s).None? && UnicodeEscape(s).Ok?
    ensures UnicodeEscape(s).value == ""
  {
    if |s| >= 6 && s[4] == '\\' && s[5] == 'u' {
      assert s[4..6] == "\\u";
    }
  }
}
