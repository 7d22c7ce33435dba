/** What cJSON_Parse makes of a text (c++/base/cJSON.c:95-200 and 248-412): for each
    parse_* routine, the value it stores and the text at which it leaves the pointer. */
module JsonParse {
  import opened Options
  import opened JsonText

  /** `Outside` marks the texts on which the C code leaves what this model describes:
      it steps over the terminator, scans non-hexadecimal text as `%4x`, or meets a
      number that has a fraction or an exponent or does not fit an int. */
  datatype Result<+T> =
    | Ok(value: T, rest: string)
    | Fail
    | Outside

  /** What a parse_* routine returns: null, a pointer to the text ahead, or nothing the
      model can tell. */
  datatype Pointer = Nil | To(text: string) | Astray

  function EndOf<T>(r: Result<T>): Pointer {
    match r
    case Ok(_, rest) => To(rest)
    case Fail => Nil
    case Outside => Astray
  }

  // ------------------------------------------------------------ transcoding

  predicate IsHex(c: char) {
    IsDigit(c) || 'a' <= c <= 'f' || 'A' <= c <= 'F'
  }

  function HexValue(c: char): (d: int)
    requires IsHex(c)
    ensures 0 <= d < 16
  {
    if IsDigit(c) then c as int - '0' as int
    else if 'a' <= c <= 'f' then c as int - 'a' as int + 10
    else c as int - 'A' as int + 10
  }

  predicate FourHex(s: string) {
    |s| >= 4 && IsHex(s[0]) && IsHex(s[1]) && IsHex(s[2]) && IsHex(s[3])
  }

  /** `sscanf(s, "%4x", &uc)` on four hexadecimal digits. */
  function Hex4(s: string): (uc: int)
    requires FourHex(s)
    ensures 0 <= uc < 0x1_0000
  {
    HexValue(s[0]) * 0x1000 + HexValue(s[1]) * 0x100 + HexValue(s[2]) * 0x10 + HexValue(s[3])
  }

  predicate IsHighSurrogate(uc: int) {
    0xD800 <= uc <= 0xDBFF
  }

  predicate IsLowSurrogate(uc: int) {
    0xDC00 <= uc <= 0xDFFF
  }

  /** `0x10000 | ((uc&0x3FF)<<10) | (uc2&0x3FF)`: the ten bits of each half do not
      overlap, but bit 16 is also bit 6 of the high half, and or-ing it in again
      changes nothing. */
  function JoinSurrogates(uc: int, uc2: int): (cp: int)
    requires IsHighSurrogate(uc) && IsLowSurrogate(uc2)
    ensures 0x1_0000 <= cp < 0x10_0000
  {
    var joined := uc % 0x400 * 0x400 + uc2 % 0x400;
    if joined / 0x1_0000 % 2 == 1 then joined else joined + 0x1_0000
  }

  function Utf8Length(uc: int): int {
    if uc < 0x80 then 1 else if uc < 0x800 then 2 else if uc < 0x1_0000 then 3 else 4
  }

  /** `(uc | 0x80) & 0xBF`, cut to a byte. */
  function ContinuationByte(uc: nat): char {
    (0x80 + uc % 0x40) as char
  }

  const FIRST_BYTE_MARK: seq<int> := [0x00, 0x00, 0xC0, 0xE0, 0xF0, 0xF8, 0xFC]

  function Utf8(uc: int): (bytes: string)
    requires 0 <= uc < 0x11_0000
    ensures |bytes| == Utf8Length(uc)
    ensures uc != 0 ==> '\0' !in bytes
  {
    if uc < 0x80 then [uc as char]
    else if uc < 0x800 then [(0xC0 + uc / 0x40) as char, ContinuationByte(uc)]
    else if uc < 0x1_0000 then
      [(0xE0 + uc / 0x1000) as char, ContinuationByte(uc / 0x40), ContinuationByte(uc)]
    else
      [(0xF0 + uc / 0x4_0000) as char, ContinuationByte(uc / 0x1000), ContinuationByte(uc / 0x40),
       ContinuationByte(uc)]
  }

  /** The `\u` case: `s` starts right behind the letter u. */
  function UnicodeEscape(s: string): (r: Result<string>)
    ensures r.Ok? ==> |r.rest| < |s| && '\0' !in r.value
    ensures !r.Fail?
  {
    if !FourHex(s) then Outside
    else
      var uc := Hex4(s);
      if IsLowSurrogate(uc) || uc == 0 then Ok("", s[4..])
      else if IsHighSurrogate(uc) then
        if Peek(s[4..]) != '\\' || Peek(s[5..]) != 'u' then Ok("", s[4..])
        else if !FourHex(s[6..]) then Outside
        else
          var uc2 := Hex4(s[6..]);
          Ok(if IsLowSurrogate(uc2) then Utf8(JoinSurrogates(uc, uc2)) else "", s[10..])
      else Ok(Utf8(uc), s[4..])
  }

  function LetterEscape(letter: char): char {
    match letter
    case 'b' => 8 as char
    case 'f' => 12 as char
    case 'n' => '\n'
    case 'r' => '\r'
    case 't' => '\t'
    case _ => letter
  }

  // ---------------------------------------------------------------- strings

  function Prepend(s: string, r: Result<string>): Result<string> {
    match r
    case Ok(t, rest) => Ok(s + t, rest)
    case _ => r
  }

  /** The second pass of parse_string, from behind the opening quote. A text that
      ends before its closing quote is accepted as it is. */
  function Unescape(p: string): (r: Result<string>)
    ensures r.Ok? ==> |r.rest| <= |p| && '\0' !in r.value
    ensures !r.Fail?
    decreases |p|
  {
    if Peek(p) == '\0' then Ok("", p)
    else if p[0] == '\"' then Ok("", p[1..])
    else if p[0] != '\\' then Prepend([p[0]], Unescape(p[1..]))
    else if Peek(p[1..]) == '\0' then Outside
    else if p[1] == 'u' then
      var e := UnicodeEscape(p[2..]);
      if e.Ok? then Prepend(e.value, Unescape(e.rest)) else Outside
    else Prepend([LetterEscape(p[1])], Unescape(p[2..]))
  }

  function ParseString(s: string): (r: Result<CString>)
    ensures r.Ok? ==> |r.rest| < |s|
  {
    if Peek(s) != '\"' then Fail
    else
      match Unescape(s[1..])
      case Ok(text, rest) => Ok(text, rest)
      case _ => Outside
  }

  // ---------------------------------------------------------------- numbers

  function ReadDigits(n: nat, s: string): (r: (nat, string))
    ensures |r.1| <= |s|
    decreases |s|
  {
    if IsDigit(Peek(s)) then ReadDigits(10 * n + (s[0] as int - '0' as int), s[1..]) else (n, s)
  }

  /** The text goes on with a fraction or an exponent. */
  predicate HasFraction(s: string) {
    || (Peek(s) == '.' && IsDigit(Peek(s[1..])))
    || Peek(s) == 'e'
    || Peek(s) == 'E'
  }

  /** One leading zero is stepped over; what follows is read as a number only when
      its first digit is not a zero. */
  function ReadNatural(s: string): (nat, string) {
    var t := if Peek(s) == '0' then s[1..] else s;
    if '1' <= Peek(t) <= '9' then ReadDigits(0, t) else (0, t)
  }

  function Unsigned(s: string): string {
    if Peek(s) == '-' then s[1..] else s
  }

  function Signed(negative: bool, n: nat): int {
    if negative then 0 - n else n
  }

  function ParseNumber(s: string): (r: Result<int>)
    ensures r.Ok? && (Peek(s) == '-' || IsDigit(Peek(s))) ==> |r.rest| < |s|
    ensures r.Ok? ==> INT_MIN <= r.value <= INT_MAX
    ensures !r.Fail?
  {
    var (n, rest) := ReadNatural(Unsigned(s));
    var signed := Signed(Peek(s) == '-', n);
    if HasFraction(rest) || !(INT_MIN <= signed <= INT_MAX) then Outside else Ok(signed, rest)
  }

  // ----------------------------------------------------------------- values

  function Skip(s: string): (t: string)
    ensures |t| <= |s|
  {
    if s != "" && 0 < s[0] as int <= 32 then Skip(s[1..]) else s
  }

  /** `!strncmp(s, word, strlen(word))`. */
  predicate StartsWith(s: string, word: string)
    requires word != ""
    ensures StartsWith(s, word) ==> Peek(s) == word[0]
  {
    |word| <= |s| && s[..|word|] == word
  }

  function ParseValue(s: string): (r: Result<Json>)
    ensures r.Ok? ==> |r.rest| < |s|
    decreases |s|, 3
  {
    if StartsWith(s, "null") then Ok(Null, s[4..])
    else if StartsWith(s, "false") then Ok(False, s[5..])
    else if StartsWith(s, "true") then Ok(True, s[4..])
    else if Peek(s) == '\"' then
      match ParseString(s)
      case Ok(text, rest) => Ok(String(Some(text)), rest)
      case Fail => Fail
      case Outside => Outside
    else if Peek(s) == '-' || IsDigit(Peek(s)) then
      match ParseNumber(s)
      case Ok(n, rest) => Ok(Number(n), rest)
      case Fail => Fail
      case Outside => Outside
    else if Peek(s) == '[' then ParseArray(s)
    else if Peek(s) == '{' then ParseObject(s)
    else Fail
  }

  function ParseArray(s: string): (r: Result<Json>)
    requires Peek(s) == '['
    ensures r.Ok? ==> |r.rest| < |s|
    decreases |s|, 1
  {
    var t := Skip(s[1..]);
    if Peek(t) == ']' then Ok(Array([]), t[1..])
    else
      match ParseElems(t)
      case Ok(elems, rest) => Ok(Array(elems), rest)
      case Fail => Fail
      case Outside => Outside
  }

  /** The elements of an array and its closing bracket, from behind `[` or `,`. */
  function ParseElems(s: string): (r: Result<seq<Json>>)
    ensures r.Ok? ==> |r.rest| < |s|
    decreases |s|, 5
  {
    match ParseValue(Skip(s))
    case Fail => Fail
    case Outside => Outside
    case Ok(v, rest) => PrependTo(v, MoreElems(Skip(rest)))
  }

  /** What may stand behind an element: a comma and more elements, or the bracket. */
  function MoreElems(t: string): (r: Result<seq<Json>>)
    ensures r.Ok? ==> |r.rest| < |t|
    decreases |t|, 1
  {
    if Peek(t) == ',' then ParseElems(t[1..])
    else if Peek(t) == ']' then Ok([], t[1..])
    else Fail
  }

  function PrependTo<T>(v: T, r: Result<seq<T>>): Result<seq<T>> {
    match r
    case Ok(vs, rest) => Ok([v] + vs, rest)
    case _ => r
  }

  function ParseObject(s: string): (r: Result<Json>)
    requires Peek(s) == '{'
    ensures r.Ok? ==> |r.rest| < |s|
    decreases |s|, 1
  {
    var t := Skip(s[1..]);
    if Peek(t) == '}' then Ok(Object([]), t[1..])
    else
      match ParseFields(t)
      case Ok(fields, rest) => Ok(Object(fields), rest)
      case Fail => Fail
      case Outside => Outside
  }

  /** A field name and a colon, up to the value. */
  function ParseName(s: string): (r: Result<CString>)
    ensures r.Ok? ==> |r.rest| < |s|
  {
    match ParseString(Skip(s))
    case Fail => Fail
    case Outside => Outside
    case Ok(name, rest) =>
      var t := Skip(rest);
      if Peek(t) != ':' then Fail else Ok(name, Skip(t[1..]))
  }

  function ParseField(s: string): (r: Result<Field>)
    ensures r.Ok? ==> |r.rest| < |s|
    decreases |s|, 5
  {
    match ParseName(s)
    case Fail => Fail
    case Outside => Outside
    case Ok(name, t) =>
      match ParseValue(t)
      case Ok(v, rest) => Ok(Field(Some(name), v), rest)
      case Fail => Fail
      case Outside => Outside
  }

  /** The fields of an object and its closing brace, from behind `{` or `,`. */
  function ParseFields(s: string): (r: Result<seq<Field>>)
    ensures r.Ok? ==> |r.rest| < |s|
    decreases |s|, 6
  {
    match ParseField(s)
    case Fail => Fail
    case Outside => Outside
    case Ok(field, rest) => PrependTo(field, MoreFields(Skip(rest)))
  }

  function MoreFields(t: string): (r: Result<seq<Field>>)
    ensures r.Ok? ==> |r.rest| < |t|
    decreases |t|, 1
  {
    if Peek(t) == ',' then ParseFields(t[1..])
    else if Peek(t) == '}' then Ok([], t[1..])
    else Fail
  }

  /** cJSON_Parse; what follows the value is not looked at. */
  function Parse(s: string): Result<Json> {
    ParseValue(Skip(s))
  }
}
