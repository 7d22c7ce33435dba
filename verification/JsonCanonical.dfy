/** The printed text of a value is the only neat text of that value: what the printers write is
    settled by what the parser reads and by the layout. */
module JsonCanonical {
  import opened Options
  import opened Sequences
  import opened JsonText
  import opened JsonParse
  import opened JsonRoundTrip
  import opened JsonGrammar
  import opened JsonLanguage
  import opened JsonLayout

  // ---------------------------------------------------------------- scalars

  lemma LowerHex(h: HexDigit)
    ensures HexText(h)[0] in "0123456789abcdef" ==> HexText(h)[0] == HexChar(h.n)
    ensures HexText(h)[0] == '0' <==> h.n == 0
    ensures HexText(h)[0] == '1' <==> h.n == 1
  {
  }

  lemma LongEscapeIs(h3: HexDigit, h4: HexDigit)
    requires LongEscape(HexText(h3)[0], HexText(h4)[0])
    ensures var n := h3.n * 0x10 + h4.n;
            && 0 < n < 0x20 && ShortEscape(n as char).None?
            && HexText(h3)[0] == HexChar(n / 16) && HexText(h4)[0] == HexChar(n % 16)
  {
    LowerHex(h3);
    LowerHex(h4);
  }

  /** What the printer writes for a character. */
  predicate IsCanonical(p: Piece) {
    match p
    case Plain(c) => c as int >= 0x20
    case Short(letter) => letter in "\"\\bfnrt"
    case Unit(h1, h2, h3, h4) =>
      HexText(h1) == HexText(h2) == "0" && LongEscape(HexText(h3)[0], HexText(h4)[0])
  }

  /** A piece at which the reader of the layout does not stop is what the printer writes. */
  lemma PieceNeat(p: Piece, u: string)
    requires BehindString(PieceText(p) + u).Some?
    ensures BehindString(PieceText(p) + u) == BehindString(u)
    ensures IsCanonical(p)
  {
    var s := PieceText(p) + u;
    match p
    case Plain(c) => assert s[1..] == u;
    case Short(letter) => assert s[2..] == u;
    case Unit(h1, h2, h3, h4) =>
      UnitRead(p, u);
      assert s[1..4] == ['u', HexText(h1)[0], HexText(h2)[0]];
      assert s[4] == HexText(h3)[0] && s[5] == HexText(h4)[0];
  }

  lemma UnitCanonical(p: Piece)
    requires p.Unit? && IsCanonical(p)
    ensures 0 < UnitValue(p) < 0x20 && EscapeChar(UnitValue(p) as char) == PieceText(p)
  {
    LowerHex(p.h1);
    LowerHex(p.h2);
    LongEscapeIs(p.h3, p.h4);
  }

  lemma PlainCanonical(p: Piece)
    requires !p.Unit? && IsCanonical(p)
    ensures EscapeChar(if p.Plain? then p.c else ShortMeaning(p.letter)) == PieceText(p)
  {
  }

  lemma {:induction false} PiecesCanonical(ps: seq<Piece>, closed: bool, rest: string)
    requires closed || Peek(rest) == '\0'
    requires BehindString(PiecesText(ps, Tail(closed, rest))).Some?
    ensures closed && BehindString(PiecesText(ps, Tail(closed, rest))) == Some(rest)
    ensures PiecesText(ps, Tail(closed, rest)) == Escape(PiecesMeaning(ps)) + ("\"" + rest)
    decreases |ps|
  {
    var tail := Tail(closed, rest);
    if ps == [] {
      assert closed ==> tail[1..] == rest;
      assert "" + ("\"" + rest) == "\"" + rest;
    } else {
      PieceNeat(ps[0], PiecesText(ps[1..], tail));
      PiecesCanonical(ps[1..], closed, rest);
      var c := FirstCanonical(ps);
      EscapeFirst(c, PiecesMeaning(ps[1..]), "\"" + rest);
    }
  }

  lemma {:induction false} FirstCanonical(ps: seq<Piece>) returns (c: char)
    requires ps != [] && IsCanonical(ps[0])
    ensures EscapeChar(c) == PieceText(ps[0]) && PiecesMeaning(ps) == [c] + PiecesMeaning(ps[1..])
  {
    if ps[0].Unit? {
      UnitCanonical(ps[0]);
      c := UnitValue(ps[0]) as char;
    } else {
      PlainCanonical(ps[0]);
      c := if ps[0].Plain? then ps[0].c else ShortMeaning(ps[0].letter);
    }
  }

  lemma {:induction false} EscapeFirst(c: char, text: string, rest: string)
    ensures Escape([c] + text) + rest == EscapeChar(c) + (Escape(text) + rest)
  {
    assert ([c] + text)[1..] == text;
  }

  lemma {:induction false} QuoteCanonical(q: Quote, rest: string)
    requires q.closed || Peek(rest) == '\0'
    requires BehindToken(QuoteText(q, rest)).Some?
    ensures q.closed && BehindToken(QuoteText(q, rest)) == Some(rest)
    ensures QuoteText(q, rest) == PrintString(Some(PiecesMeaning(q.pieces))) + rest
  {
    var inside := PiecesText(q.pieces, Tail(q.closed, rest));
    assert QuoteText(q, rest)[1..] == inside;
    PiecesCanonical(q.pieces, q.closed, rest);
    var e := Escape(PiecesMeaning(q.pieces));
    Assoc("\"", e, "\"" + rest);
    Assoc("\"" + e, "\"", rest);
  }

  lemma {:induction false} DigitsCanonical(n: nat, ds: seq<Digit>)
    requires n > 0
    ensures Digits(n * Power(|ds|) + Decimal(ds)) == Digits(n) + DigitText(ds, "")
    decreases |ds|
  {
    if ds == [] {
      assert Digits(n) + "" == Digits(n);
    } else {
      Shifted(n, ds[0], Power(|ds| - 1));
      DigitsCanonical(10 * n + ds[0], ds[1..]);
      assert "0123456789"[ds[0]] == DigitChar(ds[0]);
      assert Digits(10 * n + ds[0]) == Digits(n) + [DigitChar(ds[0])];
      Assoc(Digits(n), [DigitChar(ds[0])], DigitText(ds[1..], ""));
    }
  }

  lemma {:induction false} LeadCanonical(ds: seq<Digit>)
    requires ds != [] && ds[0] != 0
    ensures Digits(Decimal(ds)) == DigitText(ds, "") && Decimal(ds) > 0
  {
    DigitsCanonical(ds[0], ds[1..]);
    Positive(|ds| - 1);
    assert ds[0] * Power(|ds| - 1) > 0;
    assert "0123456789"[ds[0]] == DigitChar(ds[0]);
  }

  lemma {:induction false} Positive(n: nat)
    ensures Power(n) > 0
  {
    if n > 0 {
      Positive(n - 1);
    }
  }

  lemma {:induction false} NumeralShape(minus: bool, zero: bool, ds: seq<Digit>, rest: string)
    requires ds != [] ==> ds[0] != 0
    requires minus || zero || ds != []
    requires Peek(rest) !in (if zero && ds == [] then "123456789" else "0123456789")
    requires BehindNumber(NumeralText(minus, zero, ds, rest)).Some?
    ensures !IsDigit(Peek(rest)) && if zero then !minus && ds == [] else ds != []
  {
    var s := NumeralText(minus, zero, ds, rest);
    var digits := DigitText(ds, rest);
    assert minus ==> s[1..] == (if zero then "0" else "") + digits;
    assert zero && !minus ==> s[1..] == digits;
    if ds != [] {
      DigitCharacter("0123456789"[ds[0]]);
      assert digits[0] == "0123456789"[ds[0]];
    }
    DigitCharacter(Peek(rest));
  }

  lemma NumeralBranch(minus: bool, zero: bool, ds: seq<Digit>, rest: string)
    requires minus || zero || ds != []
    ensures var s := NumeralText(minus, zero, ds, rest); BehindToken(s) == BehindNumber(s)
  {
    NumeralStarts(minus, zero, ds, rest);
    DigitCharacter(NumeralText(minus, zero, ds, rest)[0]);
  }

  lemma {:induction false} ShapeCanonical(minus: bool, ds: seq<Digit>, rest: string)
    requires ds != [] && ds[0] != 0
    ensures NumeralText(minus, false, ds, rest) == PrintNumber(NumeralMeaning(minus, ds)) + rest
  {
    DigitsInFront(ds, rest);
    LeadCanonical(ds);
    var digits := DigitText(ds, "");
    assert "" + (digits + rest) == digits + rest;
    Assoc("-", digits, rest);
  }

  lemma {:induction false} NumeralCanonical(minus: bool, zero: bool, ds: seq<Digit>, rest: string)
    requires Legal(Numeral(minus, zero, ds)) && Ends(Numeral(minus, zero, ds), rest)
    requires BehindToken(NumeralText(minus, zero, ds, rest)).Some?
    ensures NumeralText(minus, zero, ds, rest) == PrintNumber(NumeralMeaning(minus, ds)) + rest
    ensures !IsDigit(Peek(rest))
  {
    NumeralBranch(minus, zero, ds, rest);
    NumeralShape(minus, zero, ds, rest);
    if zero {
      assert NumeralText(minus, zero, ds, rest) == "0" + rest;
      assert Digits(0) == "0";
    } else {
      ShapeCanonical(minus, ds, rest);
    }
  }

  // ------------------------------------------------------------ white space

  lemma SpaceIsNoToken(s: string)
    requires s != "" && 1 <= s[0] as int <= 0x20
    ensures BehindToken(s).None?
    ensures s[0] in "[]{},:\n" <==> s[0] == '\n'
  {
  }

  /** Where a line break can stand: in front of a closing brace. */
  lemma SpaceNeat(s: string, open: string, fmt: bool)
    requires s != "" && 1 <= s[0] as int <= 0x20 && Neat(s, open, fmt)
    ensures fmt && s[0] == '\n' && InObject(open)
    ensures var n := TabsAhead(s[1..]);
            n == |open| - 1 && Peek(s[1..][n..]) == '}' && Neat(s[1..][n + 1..], open[..n], true)
  {
    SpaceIsNoToken(s);
    assert NeatMark(s, open, fmt);
    assert NeatLine(s[1..], open);
  }

  lemma {:induction false} TabsBehind(space: string, s: string)
    requires Space(space) && s != "" && !(1 <= s[0] as int <= 0x20)
    ensures TabsAhead(space + s) <= |space|
    ensures TabsAhead(space + s) == |space| ==> space == Tabs(|space|)
    ensures TabsAhead(space + s) < |space| ==> 1 <= (space + s)[TabsAhead(space + s)] as int <= 0x20
    decreases |space|
  {
    if space == "" {
      assert space + s == s;
    } else {
      assert (space + s)[1..] == space[1..] + s;
      TabsBehind(space[1..], s);
      if space[0] == '\t' && space[1..] == Tabs(|space| - 1) {
        assert space == Tabs(|space|);
      }
    }
  }

  /** White space in front of anything but a closing brace, inside a line, is none. */
  lemma NoSpace(space: string, s: string, open: string, fmt: bool)
    requires Space(space) && s != "" && !(1 <= s[0] as int <= 0x20) && s[0] != '}'
    requires Neat(space + s, open, fmt)
    ensures space == "" && Neat(s, open, fmt)
  {
    if space == "" {
      assert space + s == s;
    } else {
      SpaceNeat(space + s, open, fmt);
      assert (space + s)[1..] == space[1..] + s;
      TabsBehind(space[1..], s);
    }
  }

  lemma BraceAlone(rest: string, open: string, fmt: bool)
    requires Neat("}" + rest, open, fmt)
    ensures !fmt && InObject(open)
  {
    assert NeatMark("}" + rest, open, fmt);
  }

  lemma BreakBeforeBrace(space: string, s: string, open: string)
    requires Space(space) && space != "" && s != "" && s[0] == '}' && Neat(space + s, open, true)
    ensures open != "" && space == "\n" + Tabs(|open| - 1)
  {
    SpaceNeat(space + s, open, true);
    assert (space + s)[1..] == space[1..] + s;
    TabsBehind(space[1..], s);
  }

  /** White space in front of a closing brace is a line break and tabs. */
  lemma SpaceBeforeBrace(space: string, rest: string, open: string, fmt: bool)
    requires Space(space) && Neat(space + ("}" + rest), open, fmt)
    ensures open != "" && space + ("}" + rest) == LineBreak(fmt) + (ObjectClose(|open| - 1, fmt) + rest)
  {
    var s := "}" + rest;
    if space == "" {
      assert space + s == s;
      BraceAlone(rest, open, fmt);
    } else {
      SpaceNeat(space + s, open, fmt);
      BreakBeforeBrace(space, s, open);
      Assoc("\n", Tabs(|open| - 1), s);
      Assoc(Tabs(|open| - 1), "}", rest);
    }
  }

  lemma EmptyNeat(space: string, rest: string, open: string, fmt: bool)
    requires Space(space) && NeatField(space + ("}" + rest), open, fmt)
    ensures Neat(space + ("}" + rest), open, fmt)
  {
    var s := "}" + rest;
    if fmt {
      assert space != "" ==> (space + s)[1..] == space[1..] + s;
      TabsBehind(space[1..], s);
      assert (space[1..] + s)[|space| - 1..] == s;
      assert NeatMark(space + s, open, fmt);
    }
  }

  /** White space in front of a field is a line break and tabs. */
  lemma SpaceBeforeField(space: string, s: string, open: string, fmt: bool)
    requires Space(space) && s != "" && s[0] == '\"' && NeatField(space + s, open, fmt)
    ensures space == LineBreak(fmt) + (if fmt then Tabs(|open|) else "") && Neat(s, open, fmt)
  {
    if fmt {
      var line := (space + s)[1..];
      assert space != "" ==> line == space[1..] + s;
      TabsBehind(space[1..], s);
      assert line[|space| - 1..] == s;
    } else {
      NoSpace(space, s, open, fmt);
    }
  }

  // ----------------------------------------------------------------- values

  lemma {:induction false} ScalarCanonical(t: Syntax, open: string, fmt: bool, rest: string)
    requires Legal(t) && Ends(t, rest) && !t.EmptyArray? && !t.Elements? && !t.EmptyObject? && !t.Members?
    requires Neat(Text(t, rest), open, fmt)
    ensures Text(t, rest) == Print(Meaning(t), |open|, fmt) + rest
    ensures Meaning(t).Number? ==> !IsDigit(Peek(rest))
  {
    var s := Text(t, rest);
    match t
    case Numeral(minus, zero, ds) =>
      NumeralBranch(minus, zero, ds, rest);
      DigitsNoMark(minus, zero, ds, rest);
      NumeralCanonical(minus, zero, ds, rest);
    case Quoted(q) =>
      assert s[0] == '\"';
      QuoteCanonical(q, rest);
    case _ =>
  }

  lemma {:induction false} DigitsNoMark(minus: bool, zero: bool, ds: seq<Digit>, rest: string)
    requires minus || zero || ds != []
    ensures var s := NumeralText(minus, zero, ds, rest); s != "" && s[0] !in "[]{},:\n"
  {
    NumeralStarts(minus, zero, ds, rest);
  }

  lemma {:induction false} EmptyArrayCanonical(space: string, open: string, fmt: bool, rest: string)
    requires Space(space) && Neat("[" + (space + ("]" + rest)), open, fmt)
    ensures "[" + (space + ("]" + rest)) == Print(Array([]), |open|, fmt) + rest
  {
    ArrayMarks(space + ("]" + rest), open, fmt);
    NoSpace(space, "]" + rest, open + "[", fmt);
    ArrayText([], |open|, fmt, rest);
  }

  lemma {:induction false} EmptyObjectCanonical(space: string, open: string, fmt: bool, rest: string)
    requires Space(space) && Neat("{" + (space + ("}" + rest)), open, fmt)
    ensures "{" + (space + ("}" + rest)) == Print(Object([]), |open|, fmt) + rest
  {
    ObjectMarks(space + ("}" + rest), open, fmt);
    EmptyNeat(space, rest, open + "{", fmt);
    SpaceBeforeBrace(space, rest, open + "{", fmt);
    ObjectText([], |open|, fmt, rest);
    var close := ObjectClose(|open|, fmt) + rest;
    assert PrintFields([], |open| + 1, fmt) + close == close;
  }

  /** In a place where a value is read, a neat text is the printed one, up to its end. */
  lemma {:induction false} TextCanonical(t: Syntax, open: string, fmt: bool, rest: string)
    requires Legal(t) && Ends(t, rest) && Neat(Text(t, rest), open, fmt)
    ensures Text(t, rest) == Print(Meaning(t), |open|, fmt) + rest && Neat(rest, open, fmt)
    decreases t, 0
  {
    match t {
      case EmptyArray(space) => EmptyArrayCanonical(space, open, fmt, rest);
      case Elements(items) => ElementsCanonical(items, open, fmt, rest);
      case EmptyObject(space) => EmptyObjectCanonical(space, open, fmt, rest);
      case Members(members) =>
        ObjectMarks(MembersText(members, rest), open, fmt);
        MembersCanonical(members, open, fmt, rest);
        Braced(MembersText(members, rest), MembersMeaning(members), |open|, fmt, rest);
      case _ => ScalarCanonical(t, open, fmt, rest);
    }
    ValueNeat(Meaning(t), open, fmt, rest);
  }

  /** The elements without the white space in front of the first. */
  function Bare(items: Items, rest: string): string
    requires LegalItems(items)
  {
    match items
    case LastItem(_, t, after) => Text(t, after + ("]" + rest))
    case NextItem(_, t, after, more) => Text(t, after + ("," + ItemsText(more, rest)))
  }

  lemma {:induction false} BareText(items: Items, rest: string)
    requires LegalItems(items)
    ensures var s := Bare(items, rest);
            && ItemsText(items, rest) == items.before + s
            && s != "" && !(1 <= s[0] as int <= 0x20) && s[0] != '}'
  {
    TextStarts(items.value, items.after + if items.LastItem? then "]" + rest else "," + ItemsText(items.more, rest));
  }

  lemma {:induction false} ElementsCanonical(items: Items, open: string, fmt: bool, rest: string)
    requires LegalItems(items) && Neat("[" + ItemsText(items, rest), open, fmt)
    ensures "[" + ItemsText(items, rest) == Print(Array(ItemsMeaning(items)), |open|, fmt) + rest
    decreases items, 2
  {
    ArrayMarks(ItemsText(items, rest), open, fmt);
    InsideCanonical(items, open + "[", fmt, rest);
    ArrayText(ItemsMeaning(items), |open|, fmt, rest);
  }

  lemma {:induction false} InsideCanonical(items: Items, open: string, fmt: bool, rest: string)
    requires LegalItems(items) && InArray(open) && Neat(ItemsText(items, rest), open, fmt)
    ensures ItemsText(items, rest) == PrintElems(ItemsMeaning(items), |open|, fmt) + "]" + rest
    decreases items, 1
  {
    BareText(items, rest);
    NoSpace(items.before, Bare(items, rest), open, fmt);
    assert "" + Bare(items, rest) == Bare(items, rest);
    ItemsCanonical(items, open, fmt, rest);
  }

  lemma {:induction false} SeparatorCanonical(space: string, s: string, open: string, fmt: bool)
    requires Space(space) && s != "" && !(1 <= s[0] as int <= 0x20) && s[0] != '}'
    requires InArray(open) && Neat("," + (space + s), open, fmt)
    ensures "," + (space + s) == Separator(fmt) + s && Neat(s, open, fmt)
  {
    var t := space + s;
    assert NeatMark("," + t, open, fmt);
    assert ("," + t)[1..] == t;
    if fmt {
      assert ("," + t)[2..] == space[1..] + s;
      NoSpace(space[1..], s, open, fmt);
      assert space == " ";
    } else {
      NoSpace(space, s, open, fmt);
    }
  }

  /** An element and the white space behind it. */
  lemma {:induction false} ItemCanonical(t: Syntax, after: string, open: string, fmt: bool, rest: string)
    requires Legal(t) && !Unclosed(t) && Space(after) && rest != "" && rest[0] in ",]"
    requires Neat(Text(t, after + rest), open, fmt)
    ensures Text(t, after + rest) == Print(Meaning(t), |open|, fmt) + rest && Neat(rest, open, fmt)
    decreases t, 1
  {
    Stops(t, after, rest);
    TextCanonical(t, open, fmt, after + rest);
    NoSpace(after, rest, open, fmt);
    assert after + rest == rest;
  }

  lemma {:induction false} ItemsCanonical(items: Items, open: string, fmt: bool, rest: string)
    requires LegalItems(items) && InArray(open) && Neat(Bare(items, rest), open, fmt)
    ensures Bare(items, rest) == PrintElems(ItemsMeaning(items), |open|, fmt) + "]" + rest
    decreases items, 0
  {
    var vs := ItemsMeaning(items);
    ElemsText(vs, |open|, fmt, rest);
    match items
    case LastItem(_, t, after) => ItemCanonical(t, after, open, fmt, "]" + rest);
    case NextItem(_, t, after, more) =>
      ItemCanonical(t, after, open, fmt, "," + ItemsText(more, rest));
      BareText(more, rest);
      SeparatorCanonical(more.before, Bare(more, rest), open, fmt);
      ItemsCanonical(more, open, fmt, rest);
      assert vs[1..] == ItemsMeaning(more);
  }

  function FieldLine(name: CString, value: string, depth: nat, fmt: bool): string {
    (if fmt then Tabs(depth) else "") + (PrintString(Some(name)) + (":" + ((if fmt then "\t" else "") + value)))
  }

  lemma {:induction false} ColonCanonical(space: string, value: string, open: string, fmt: bool)
    requires Space(space) && value != "" && !(1 <= value[0] as int <= 0x20) && value[0] != '}'
    requires Neat(":" + (space + value), open, fmt)
    ensures ":" + (space + value) == ":" + ((if fmt then "\t" else "") + value) && Neat(value, open, fmt)
  {
    var t := space + value;
    assert NeatMark(":" + t, open, fmt);
    assert (":" + t)[1..] == t;
    if fmt {
      assert (":" + t)[2..] == space[1..] + value;
      NoSpace(space[1..], value, open, fmt);
      assert space == "\t";
    } else {
      NoSpace(space, value, open, fmt);
    }
  }

  lemma {:induction false} KeyCanonical(key: Key, value: string, open: string, fmt: bool)
    requires LegalKey(key) && value != "" && !(1 <= value[0] as int <= 0x20) && value[0] != '}'
    requires NeatField(KeyText(key, value), open, fmt)
    ensures KeyText(key, value) == LineBreak(fmt) + FieldLine(PiecesMeaning(key.quote.pieces), value, |open|, fmt)
    ensures Neat(value, open, fmt)
  {
    var colon := ":" + (key.space + value);
    var named := QuoteText(key.quote, key.after + colon);
    SpaceBeforeField(key.before, named, open, fmt);
    QuoteCanonical(key.quote, key.after + colon);
    TokenNeat(named, open, fmt);
    NoSpace(key.after, colon, open, fmt);
    assert key.after + colon == colon;
    ColonCanonical(key.space, value, open, fmt);
    Assoc(LineBreak(fmt), if fmt then Tabs(|open|) else "", named);
  }

  lemma {:induction false} LineIsField(name: CString, v: Json, depth: nat, fmt: bool, rest: string)
    ensures FieldLine(name, Print(v, depth, fmt) + rest, depth, fmt)
         == PrintField(Field(Some(name), v), depth, fmt) + rest
  {
    FieldText(Field(Some(name), v), depth, fmt, rest);
  }

  /** A field and the white space behind it. */
  lemma {:induction false} MemberCanonical(key: Key, t: Syntax, after: string, open: string, fmt: bool, rest: string)
    requires LegalKey(key) && Legal(t) && !Unclosed(t) && Space(after) && rest != "" && rest[0] in ",}"
    requires NeatField(KeyText(key, Text(t, after + rest)), open, fmt)
    ensures KeyText(key, Text(t, after + rest))
         == LineBreak(fmt) + (PrintField(Field(Some(PiecesMeaning(key.quote.pieces)), Meaning(t)), |open|, fmt)
                              + (after + rest))
    ensures Neat(after + rest, open, fmt)
    decreases t, 1
  {
    Stops(t, after, rest);
    TextStarts(t, after + rest);
    KeyCanonical(key, Text(t, after + rest), open, fmt);
    TextCanonical(t, open, fmt, after + rest);
    LineIsField(PiecesMeaning(key.quote.pieces), Meaning(t), |open|, fmt, after + rest);
  }

  lemma {:induction false} LastCanonical(after: string, fields: seq<Field>, open: string, fmt: bool, rest: string)
    requires Space(after) && |fields| == 1 && Neat(after + ("}" + rest), open + "{", fmt)
    ensures LineBreak(fmt) + (PrintField(fields[0], |open| + 1, fmt) + (after + ("}" + rest)))
         == LineBreak(fmt) + (PrintFields(fields, |open| + 1, fmt) + (ObjectClose(|open|, fmt) + rest))
  {
    SpaceBeforeBrace(after, rest, open + "{", fmt);
    FieldsText(fields, |open| + 1, fmt, ObjectClose(|open|, fmt) + rest);
  }

  lemma {:induction false} NextCanonical(after: string, fields: seq<Field>, more: string, depth: nat, open: string,
                                         fmt: bool, rest: string)
    requires Space(after) && InObject(open) && |fields| > 1 && Neat(after + ("," + more), open, fmt)
    ensures NeatField(more, open, fmt)
    ensures more == LineBreak(fmt) + (PrintFields(fields[1..], depth, fmt) + rest) ==>
              PrintField(fields[0], depth, fmt) + (after + ("," + more)) == PrintFields(fields, depth, fmt) + rest
  {
    NoSpace(after, "," + more, open, fmt);
    assert after + ("," + more) == "," + more;
    ObjectMarks(more, open, fmt);
    FieldsText(fields, depth, fmt, rest);
  }

  lemma {:induction false} MembersCanonical(members: Members, open: string, fmt: bool, rest: string)
    requires LegalMembers(members) && NeatField(MembersText(members, rest), open + "{", fmt)
    ensures MembersText(members, rest)
         == LineBreak(fmt) + (PrintFields(MembersMeaning(members), |open| + 1, fmt) + (ObjectClose(|open|, fmt) + rest))
    decreases members, 0
  {
    var fields := MembersMeaning(members);
    match members
    case LastMember(key, t, after) =>
      MemberCanonical(key, t, after, open + "{", fmt, "}" + rest);
      LastCanonical(after, fields, open, fmt, rest);
    case NextMember(key, t, after, more) =>
      var tail := MembersText(more, rest);
      MemberCanonical(key, t, after, open + "{", fmt, "," + tail);
      assert fields[1..] == MembersMeaning(more);
      NextCanonical(after, fields, tail, |open| + 1, open + "{", fmt, ObjectClose(|open|, fmt) + rest);
      MembersCanonical(more, open, fmt, rest);
  }

  lemma Braced(text: string, fields: seq<Field>, depth: nat, fmt: bool, rest: string)
    requires text == LineBreak(fmt) + (PrintFields(fields, depth + 1, fmt) + (ObjectClose(depth, fmt) + rest))
    ensures "{" + text == Print(Object(fields), depth, fmt) + rest
  {
    ObjectText(fields, depth, fmt, rest);
  }

  /** For every text: it is what cJSON_Print (fmt) or cJSON_PrintUnformatted (not fmt) makes of
      a tree with the value v, if and only if it is neat and is parsed to v. */
  lemma PrintExactlyWhen(v: Json, fmt: bool, s: string)
    requires Printable(v)
    ensures s == Print(v, 0, fmt) <==> Parse(s) == Ok(v, "") && Neat(s, "", fmt)
  {
    if s == Print(v, 0, fmt) {
      PrintThenParse(v, fmt);
      PrintIsNeat(v, fmt);
    } else if Parse(s) == Ok(v, "") && Neat(s, "", fmt) {
      ParseExactlyWhen(s, v, "");
      var space, t :| Derivation(s, space, t, v, "");
      TextStarts(t, "");
      NoSpace(space, Text(t, ""), "", fmt);
      TextCanonical(t, "", fmt, "");
    }
  }
}
