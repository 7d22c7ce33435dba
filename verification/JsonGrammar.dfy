/** The texts that cJSON_Parse accepts, by a grammar of their own: the JSON of RFC 8259, and what
    the code tolerates beyond it (c++/base/cJSON.c:95-200 and 248-412). A derivation spells
    out every token and all white space of a text. */
module JsonGrammar {
  import opened Options
  import opened JsonText
  import opened JsonParse

  // ------------------------------------------------------------ derivations

  type Digit = d: nat | d < 10

  type Nibble = n: nat | n < 16

  type PlainChar = c: char | c != '\"' && c != '\\' && c != '\0' witness 'a'

  type Letter = c: char | c != 'u' && c != '\0' witness 'n'

  datatype HexDigit = HexDigit(n: Nibble, upper: bool)

  /** A character, `\` and a letter, or `\u` and four hexadecimal digits. */
  datatype Piece =
    | Plain(c: PlainChar)
    | Short(letter: Letter)
    | Unit(h1: HexDigit, h2: HexDigit, h3: HexDigit, h4: HexDigit)

  datatype Quote = Quote(pieces: seq<Piece>, closed: bool)

  datatype Syntax =
    | NullWord
    | FalseWord
    | TrueWord
    | Numeral(minus: bool, zero: bool, digits: seq<Digit>)
    | Quoted(quote: Quote)
    | EmptyArray(space: string)
    | Elements(items: Items)
    | EmptyObject(space: string)
    | Members(members: Members)

  /** Elements with the white space around each, and the closing bracket. */
  datatype Items =
    | LastItem(before: string, value: Syntax, after: string)
    | NextItem(before: string, value: Syntax, after: string, more: Items)

  /** A name with the white space around it and behind its colon. */
  datatype Key = Key(before: string, quote: Quote, after: string, space: string)

  datatype Members =
    | LastMember(key: Key, value: Syntax, after: string)
    | NextMember(key: Key, value: Syntax, after: string, more: Members)

  // ------------------------------------------------------------------ texts

  function HexText(h: HexDigit): string
  {
    if h.upper then ["0123456789ABCDEF"[h.n]] else ["0123456789abcdef"[h.n]]
  }

  function PieceText(p: Piece): (s: string)
    ensures s != ""
  {
    match p
    case Plain(c) => [c]
    case Short(letter) => ['\\', letter]
    case Unit(h1, h2, h3, h4) => "\\u" + HexText(h1) + HexText(h2) + HexText(h3) + HexText(h4)
  }

  /** The text of the pieces, in front of what follows; likewise below. */
  function PiecesText(ps: seq<Piece>, rest: string): string {
    if ps == [] then rest else PieceText(ps[0]) + PiecesText(ps[1..], rest)
  }

  function QuoteText(q: Quote, rest: string): string
  {
    "\"" + PiecesText(q.pieces, if q.closed then "\"" + rest else rest)
  }

  function DigitText(ds: seq<Digit>, rest: string): string
  {
    if ds == [] then rest else ["0123456789"[ds[0]]] + DigitText(ds[1..], rest)
  }

  function NumeralText(minus: bool, zero: bool, ds: seq<Digit>, rest: string): string {
    (if minus then "-" else "") + ((if zero then "0" else "") + DigitText(ds, rest))
  }

  /** Any bytes up to the blank are white space. */
  predicate Space(s: string) {
    forall i | 0 <= i < |s| :: 1 <= s[i] as int <= 0x20
  }

  predicate Unclosed(t: Syntax) {
    t.Quoted? && !t.quote.closed
  }

  /** What the code accepts: an optional minus sign, an optional zero, and digits that begin
      with another one, in the range of an int; a string that lacks its closing quote only at
      the end of the text. */
  predicate Legal(t: Syntax) {
    match t
    case Numeral(minus, zero, ds) =>
      && (ds != [] ==> ds[0] != 0)
      && (minus || zero || ds != [])
      && INT_MIN <= NumeralMeaning(minus, ds) <= INT_MAX
    case EmptyArray(space) => Space(space)
    case Elements(items) => LegalItems(items)
    case EmptyObject(space) => Space(space)
    case Members(members) => LegalMembers(members)
    case _ => true
  }

  predicate LegalItems(items: Items) {
    match items
    case LastItem(before, t, after) => Space(before) && Legal(t) && !Unclosed(t) && Space(after)
    case NextItem(before, t, after, more) =>
      Space(before) && Legal(t) && !Unclosed(t) && Space(after) && LegalItems(more)
  }

  predicate LegalKey(k: Key) {
    Space(k.before) && k.quote.closed && Space(k.after) && Space(k.space)
  }

  predicate LegalMembers(members: Members) {
    match members
    case LastMember(key, t, after) => LegalKey(key) && Legal(t) && !Unclosed(t) && Space(after)
    case NextMember(key, t, after, more) =>
      LegalKey(key) && Legal(t) && !Unclosed(t) && Space(after) && LegalMembers(more)
  }

  function Text(t: Syntax, rest: string): string
    requires Legal(t)
  {
    match t
    case NullWord => "null" + rest
    case FalseWord => "false" + rest
    case TrueWord => "true" + rest
    case Numeral(minus, zero, ds) => NumeralText(minus, zero, ds, rest)
    case Quoted(q) => QuoteText(q, rest)
    case EmptyArray(space) => "[" + (space + ("]" + rest))
    case Elements(items) => "[" + ItemsText(items, rest)
    case EmptyObject(space) => "{" + (space + ("}" + rest))
    case Members(members) => "{" + MembersText(members, rest)
  }

  function ItemsText(items: Items, rest: string): string
    requires LegalItems(items)
  {
    match items
    case LastItem(before, t, after) => before + Text(t, after + ("]" + rest))
    case NextItem(before, t, after, more) => before + Text(t, after + ("," + ItemsText(more, rest)))
  }

  function KeyText(k: Key, rest: string): string
    requires LegalKey(k)
  {
    k.before + QuoteText(k.quote, k.after + (":" + (k.space + rest)))
  }

  function MembersText(members: Members, rest: string): string
    requires LegalMembers(members)
  {
    match members
    case LastMember(key, t, after) => KeyText(key, Text(t, after + ("}" + rest)))
    case NextMember(key, t, after, more) =>
      KeyText(key, Text(t, after + ("," + MembersText(more, rest))))
  }

  // --------------------------------------------------------------- meanings

  function UnitValue(p: Piece): (n: int)
    requires p.Unit?
    ensures 0 <= n < 0x1_0000
  {
    p.h1.n * 0x1000 + p.h2.n * 0x100 + p.h3.n * 0x10 + p.h4.n
  }

  function ShortMeaning(letter: char): char {
    match letter
    case 'b' => 8 as char
    case 't' => 9 as char
    case 'n' => 10 as char
    case 'f' => 12 as char
    case 'r' => 13 as char
    case _ => letter
  }

  predicate HighHalf(w: int) {
    0xD800 <= w < 0xDC00
  }

  predicate LowHalf(w: int) {
    0xDC00 <= w < 0xE000
  }

  /** The code point of a surrogate pair, short by 0x10000 when bit 0x40 of the high half is
      set. */
  function PairValue(w1: int, w2: int): (cp: int)
    requires HighHalf(w1) && LowHalf(w2)
    ensures 0 < cp < 0x11_0000
  {
    0x1_0000 + (w1 - 0xD800) * 0x400 + (w2 - 0xDC00) - (if w1 / 0x40 % 2 == 1 then 0x1_0000 else 0)
  }

  function UnitMeaning(w: int): CString
    requires 0 <= w < 0x1_0000
  {
    if w == 0 || HighHalf(w) || LowHalf(w) then "" else Utf8(w)
  }

  function PairMeaning(w1: int, w2: int): CString
    requires HighHalf(w1)
  {
    if LowHalf(w2) then Utf8(PairValue(w1, w2)) else ""
  }

  /** Two halves of a pair are one code point. A half alone, what stands in the place of the
      low half, and NUL mean nothing. */
  function PiecesMeaning(ps: seq<Piece>): CString {
    if ps == [] then ""
    else
      match ps[0]
      case Plain(c) => [c] + PiecesMeaning(ps[1..])
      case Short(letter) => [ShortMeaning(letter)] + PiecesMeaning(ps[1..])
      case Unit(_, _, _, _) =>
        var w := UnitValue(ps[0]);
        if HighHalf(w) && |ps| > 1 && ps[1].Unit? then
          PairMeaning(w, UnitValue(ps[1])) + PiecesMeaning(ps[2..])
        else UnitMeaning(w) + PiecesMeaning(ps[1..])
  }

  function Power(n: nat): nat {
    if n == 0 then 1 else 10 * Power(n - 1)
  }

  function Decimal(ds: seq<Digit>): nat {
    if ds == [] then 0 else ds[0] * Power(|ds| - 1) + Decimal(ds[1..])
  }

  function NumeralMeaning(minus: bool, ds: seq<Digit>): int {
    if minus then 0 - Decimal(ds) else Decimal(ds)
  }

  function Meaning(t: Syntax): Json
    requires Legal(t)
  {
    match t
    case NullWord => Null
    case FalseWord => False
    case TrueWord => True
    case Numeral(minus, _, ds) => Number(NumeralMeaning(minus, ds))
    case Quoted(q) => String(Some(PiecesMeaning(q.pieces)))
    case EmptyArray(_) => Array([])
    case Elements(items) => Array(ItemsMeaning(items))
    case EmptyObject(_) => Object([])
    case Members(members) => Object(MembersMeaning(members))
  }

  function ItemsMeaning(items: Items): seq<Json>
    requires LegalItems(items)
  {
    match items
    case LastItem(_, t, _) => [Meaning(t)]
    case NextItem(_, t, _, more) => [Meaning(t)] + ItemsMeaning(more)
  }

  function MembersMeaning(members: Members): seq<Field>
    requires LegalMembers(members)
  {
    match members
    case LastMember(key, t, _) => [Field(Some(PiecesMeaning(key.quote.pieces)), Meaning(t))]
    case NextMember(key, t, _, more) =>
      [Field(Some(PiecesMeaning(key.quote.pieces)), Meaning(t))] + MembersMeaning(more)
  }

  /** What may follow the text, so that it is not read on: behind a number no digit that would
      belong to it, no fraction and no exponent; behind a string without its quote, the end. */
  predicate Ends(t: Syntax, rest: string) {
    match t
    case Numeral(_, zero, ds) =>
      && Peek(rest) !in (if zero && ds == [] then "123456789" else "0123456789")
      && Peek(rest) !in "eE"
      && !(Peek(rest) == '.' && Peek(rest[1..]) in "0123456789")
    case Quoted(q) => q.closed || Peek(rest) == '\0'
    case _ => true
  }

  // --------------------------------------------------------------- RFC 8259

  predicate StandardSpace(s: string) {
    forall c | c in s :: c in [' ', 9 as char, 10 as char, 13 as char]
  }

  predicate StandardQuote(q: Quote) {
    q.closed && forall p | p in q.pieces :: match p
                                           case Plain(c) => c as int >= 0x20
                                           case Short(letter) => letter in "\"\\/bfnrt"
                                           case Unit(_, _, _, _) => true
  }

  /** The grammar of RFC 8259 for numbers that are ints: its white space, its escapes, no control
      characters in a string, no zero in front of other digits. */
  predicate Standard(t: Syntax) {
    match t
    case Numeral(minus, zero, ds) =>
      && zero == (ds == []) && (ds != [] ==> ds[0] != 0)
      && INT_MIN <= NumeralMeaning(minus, ds) <= INT_MAX
    case Quoted(q) => StandardQuote(q)
    case EmptyArray(space) => StandardSpace(space)
    case Elements(items) => StandardItems(items)
    case EmptyObject(space) => StandardSpace(space)
    case Members(members) => StandardMembers(members)
    case _ => true
  }

  predicate StandardItems(items: Items) {
    match items
    case LastItem(before, t, after) => StandardSpace(before) && Standard(t) && StandardSpace(after)
    case NextItem(before, t, after, more) =>
      StandardSpace(before) && Standard(t) && StandardSpace(after) && StandardItems(more)
  }

  predicate StandardKey(key: Key) {
    StandardSpace(key.before) && StandardQuote(key.quote) && StandardSpace(key.after) && StandardSpace(key.space)
  }

  predicate StandardMembers(members: Members) {
    match members
    case LastMember(key, t, after) => StandardKey(key) && Standard(t) && StandardSpace(after)
    case NextMember(key, t, after, more) =>
      StandardKey(key) && Standard(t) && StandardSpace(after) && StandardMembers(more)
  }
}
