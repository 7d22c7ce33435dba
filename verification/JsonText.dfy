/** The JSON values that cJSON trees hold, and the text that cJSON_Print and
    cJSON_PrintUnformatted produce for them (c++/base/cJSON.c).

    A byte is a char, and a `const char *` into a NUL-terminated text is the text
    that is still ahead of the pointer: `*p` is Peek(p) and `p+1` is p[1..]. */
module JsonText {
  import opened Options

  /** What a non-null `char *` holds: everything before its terminator. */
  type CString = s: string | '\0' !in s

  datatype Json =
    | Null
    | False
    | True
    | Number(n: int)
    | String(text: Option<CString>)
    | Array(elems: seq<Json>)
    | Object(fields: seq<Field>)

  datatype Field = Field(name: Option<CString>, value: Json)

  const INT_MIN: int := -0x8000_0000
  const INT_MAX: int := 0x7FFF_FFFF

  /** A C int. */
  type cint = n: int | INT_MIN <= n <= INT_MAX

  /** The character under the pointer; the terminator at the end of the text. */
  function Peek(s: string): char {
    if s == "" then '\0' else s[0]
  }

  predicate IsDigit(c: char) {
    '0' <= c <= '9'
  }

  function DigitChar(d: int): (c: char)
    requires 0 <= d < 10
    ensures IsDigit(c) && c as int - '0' as int == d
  {
    (d + '0' as int) as char
  }

  // ---------------------------------------------------------------- strings

  /** One lower-case hexadecimal digit, as `%x` prints it. */
  function HexChar(d: int): char
    requires 0 <= d < 16
  {
    if d < 10 then DigitChar(d) else (d - 10 + 'a' as int) as char
  }

  predicate IsPlain(c: char) {
    c as int > 31 && c != '\"' && c != '\\'
  }

  /** The letter that follows the backslash of a two-character escape. */
  function ShortEscape(c: char): Option<char> {
    match c as int
    case 92 => Some('\\')
    case 34 => Some('\"')
    case 8 => Some('b')
    case 12 => Some('f')
    case 10 => Some('n')
    case 13 => Some('r')
    case 9 => Some('t')
    case _ => None
  }

  function EscapeChar(c: char): string {
    if IsPlain(c) then [c]
    else
      match ShortEscape(c)
      case Some(letter) => ['\\', letter]
      case None => ['\\', 'u', '0', '0', HexChar(c as int / 16), HexChar(c as int % 16)]
  }

  function Escape(s: string): string {
    if s == "" then "" else EscapeChar(s[0]) + Escape(s[1..])
  }

  /** A null string prints as nothing at all, without quotes. */
  function PrintString(text: Option<string>): string {
    match text
    case None => ""
    case Some(s) => "\"" + Escape(s) + "\""
  }

  // ---------------------------------------------------------------- numbers

  function Digits(n: nat): string {
    if n < 10 then [DigitChar(n)] else Digits(n / 10) + [DigitChar(n % 10)]
  }

  /** `%d`. */
  function PrintNumber(n: int): string {
    if n < 0 then "-" + Digits(-n) else Digits(n)
  }

  // ------------------------------------------------------- arrays and objects

  function Tabs(n: nat): string {
    seq(n, _ => '\t')
  }

  function Separator(fmt: bool): string {
    if fmt then ", " else ","
  }

  /** The text of a value that sits `depth` levels below the root. */
  function Print(v: Json, depth: nat, fmt: bool): string
    decreases v, 0
  {
    match v
    case Null => "null"
    case False => "false"
    case True => "true"
    case Number(n) => PrintNumber(n)
    case String(text) => PrintString(text)
    case Array(elems) => "[" + PrintElems(elems, depth + 1, fmt) + "]"
    case Object(fields) => ObjectOpen(fmt) + PrintFields(fields, depth + 1, fmt) + ObjectClose(depth, fmt)
  }

  function ObjectOpen(fmt: bool): string {
    if fmt then "{\n" else "{"
  }

  function ObjectClose(depth: nat, fmt: bool): string {
    (if fmt then Tabs(depth) else "") + "}"
  }

  function PrintElems(elems: seq<Json>, depth: nat, fmt: bool): string
    decreases elems, 1
  {
    if |elems| == 0 then ""
    else if |elems| == 1 then Print(elems[0], depth, fmt)
    else Print(elems[0], depth, fmt) + Separator(fmt) + PrintElems(elems[1..], depth, fmt)
  }

  function FieldLead(name: Option<string>, depth: nat, fmt: bool): string {
    (if fmt then Tabs(depth) else "") + PrintString(name) + (if fmt then ":\t" else ":")
  }

  function FieldTail(last: bool, fmt: bool): string {
    (if last then "" else ",") + (if fmt then "\n" else "")
  }

  function PrintField(field: Field, depth: nat, fmt: bool): string
    decreases field, 1
  {
    FieldLead(field.name, depth, fmt) + Print(field.value, depth, fmt)
  }

  function PrintFields(fields: seq<Field>, depth: nat, fmt: bool): string
    decreases fields, 1
  {
    if |fields| == 0 then ""
    else
      PrintField(fields[0], depth, fmt)
      + FieldTail(|fields| == 1, fmt) + PrintFields(fields[1..], depth, fmt)
  }

  /** The trees that printing is meant to preserve: every number fits a C int and
      no string or field name is null. */
  ghost predicate Printable(v: Json) {
    match v
    case Number(n) => INT_MIN <= n <= INT_MAX
    case String(text) => text.Some?
    case Array(elems) => forall i | 0 <= i < |elems| :: Printable(elems[i])
    case Object(fields) => forall i | 0 <= i < |fields| :: fields[i].name.Some? && Printable(fields[i].value)
    case _ => true
  }
}
