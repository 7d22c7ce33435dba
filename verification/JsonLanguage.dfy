/** cJSON_Parse against the grammar: what it returns, and where it stops, for every text. */
module JsonLanguage {
  import opened Options
  import opened Sequences
  import opened JsonText
  import opened JsonParse
  import opened JsonUnicode
  import opened JsonRoundTrip
  import opened JsonGrammar

  // ---------------------------------------------------------------- strings

  lemma HexRead(h: HexDigit)
    ensures |HexText(h)| == 1 && IsHex(HexText(h)[0]) && HexValue(HexText(h)[0]) == h.n
  {
  }

  lemma UnitRead(p: Piece, rest: string)
    requires p.Unit?
    ensures var q := PieceText(p) + rest;
            && |q| >= 6 && q[0] == '\\' && q[1] == 'u'
            && FourHex(q[2..]) && Hex4(q[2..]) == UnitValue(p) && q[6..] == rest
  {
    HexRead(p.h1);
    HexRead(p.h2);
    HexRead(p.h3);
    HexRead(p.h4);
  }

  /** A text that ends a string: its closing quote, or the end of the whole text. */
  predicate Closes(tail: string, rest: string) {
    tail == "\"" + rest || (tail == rest && Peek(rest) == '\0')
  }

  lemma NoUnit(ps: seq<Piece>, tail: string, rest: string)
    requires Closes(tail, rest) && (ps == [] || !ps[0].Unit?)
    ensures var u := PiecesText(ps, tail); Peek(u) != '\\' || Peek(u[1..]) != 'u'
  {
  }

  lemma UnitStep(p: Piece, u: string)
    requires p.Unit?
    ensures var e := UnicodeEscape((PieceText(p) + u)[2..]);
            e.Ok? ==> Unescape(PieceText(p) + u) == Prepend(e.value, Unescape(e.rest))
  {
    UnitRead(p, u);
  }

  /** A unit that is not read together with the next one. */
  lemma UnitAlone(p: Piece, u: string)
    requires p.Unit?
    requires IsHighSurrogate(UnitValue(p)) ==> Peek(u) != '\\' || Peek(u[1..]) != 'u'
    ensures Unescape(PieceText(p) + u) == Prepend(UnitMeaning(UnitValue(p)), Unescape(u))
  {
    var s := (PieceText(p) + u)[2..];
    UnitRead(p, u);
    UnitStep(p, u);
    assert s[4..] == u;
    if u != "" {
      assert s[5..] == u[1..];
    }
  }

  lemma PairBranch(s: string)
    requires FourHex(s) && IsHighSurrogate(Hex4(s))
    requires |s| >= 10 && s[4] == '\\' && s[5] == 'u' && FourHex(s[6..])
    ensures UnicodeEscape(s) == Ok(PairMeaning(Hex4(s), Hex4(s[6..])), s[10..])
  {
    if IsLowSurrogate(Hex4(s[6..])) {
      SurrogatesAgree(Hex4(s), Hex4(s[6..]));
    }
  }

  lemma PairRead(p1: Piece, p2: Piece, u: string)
    requires p1.Unit? && p2.Unit? && IsHighSurrogate(UnitValue(p1))
    ensures Unescape(PieceText(p1) + (PieceText(p2) + u))
         == Prepend(PairMeaning(UnitValue(p1), UnitValue(p2)), Unescape(u))
  {
    var second := PieceText(p2) + u;
    var s := (PieceText(p1) + second)[2..];
    UnitRead(p1, second);
    UnitRead(p2, u);
    UnitStep(p1, second);
    assert s[4..] == second;
    assert s[6..] == second[2..] && s[10..] == second[6..];
    PairBranch(s);
  }

  lemma PlainStep(p: Piece, u: string)
    requires !p.Unit?
    ensures var c := if p.Plain? then p.c else ShortMeaning(p.letter);
            Unescape(PieceText(p) + u) == Prepend([c], Unescape(u))
  {
    var q := PieceText(p) + u;
    if p.Plain? {
      assert q[1..] == u;
    } else {
      assert q[2..] == u;
    }
  }

  lemma {:induction false} PairText(ps: seq<Piece>, tail: string)
    requires |ps| > 1
    ensures PiecesText(ps, tail) == PieceText(ps[0]) + (PieceText(ps[1]) + PiecesText(ps[2..], tail))
  {
    assert ps[1..][1..] == ps[2..];
  }

  predicate IsPair(ps: seq<Piece>) {
    |ps| > 1 && ps[0].Unit? && ps[1].Unit? && IsHighSurrogate(UnitValue(ps[0]))
  }

  lemma {:induction false} PairAhead(ps: seq<Piece>, tail: string)
    requires IsPair(ps)
    ensures var text := PairMeaning(UnitValue(ps[0]), UnitValue(ps[1]));
            && PiecesMeaning(ps) == text + PiecesMeaning(ps[2..])
            && Unescape(PiecesText(ps, tail)) == Prepend(text, Unescape(PiecesText(ps[2..], tail)))
  {
    PairText(ps, tail);
    PairRead(ps[0], ps[1], PiecesText(ps[2..], tail));
  }

  lemma {:induction false} PieceAhead(ps: seq<Piece>, tail: string, rest: string) returns (text: string)
    requires ps != [] && !IsPair(ps) && Closes(tail, rest)
    ensures PiecesMeaning(ps) == text + PiecesMeaning(ps[1..])
    ensures Unescape(PiecesText(ps, tail)) == Prepend(text, Unescape(PiecesText(ps[1..], tail)))
  {
    var u := PiecesText(ps[1..], tail);
    if ps[0].Unit? {
      if IsHighSurrogate(UnitValue(ps[0])) {
        NoUnit(ps[1..], tail, rest);
      }
      UnitAlone(ps[0], u);
      text := UnitMeaning(UnitValue(ps[0]));
    } else {
      PlainStep(ps[0], u);
      text := [if ps[0].Plain? then ps[0].c else ShortMeaning(ps[0].letter)];
    }
  }

  lemma {:induction false} PiecesRead(ps: seq<Piece>, tail: string, rest: string)
    requires Closes(tail, rest)
    ensures Unescape(PiecesText(ps, tail)) == Ok(PiecesMeaning(ps), rest)
    decreases |ps|
  {
    if ps == [] {
      assert ("\"" + rest)[1..] == rest;
    } else if IsPair(ps) {
      PairAhead(ps, tail);
      PiecesRead(ps[2..], tail, rest);
    } else {
      var _ := PieceAhead(ps, tail, rest);
      PiecesRead(ps[1..], tail, rest);
    }
  }

  lemma {:induction false} QuoteRead(q: Quote, rest: string)
    requires q.closed || Peek(rest) == '\0'
    ensures ParseString(QuoteText(q, rest)) == Ok(PiecesMeaning(q.pieces), rest)
  {
    var tail := if q.closed then "\"" + rest else rest;
    PiecesRead(q.pieces, tail, rest);
    assert QuoteText(q, rest)[1..] == PiecesText(q.pieces, tail);
  }

  // ---------------------------------------------------------------- numbers

  lemma {:induction false} DigitsRead(n: nat, ds: seq<Digit>, rest: string)
    requires !IsDigit(Peek(rest))
    ensures ReadDigits(n, DigitText(ds, rest)) == (n * Power(|ds|) + Decimal(ds), rest)
    decreases |ds|
  {
    if ds != [] {
      var text := DigitText(ds, rest);
      assert text[0] as int - '0' as int == ds[0] && text[1..] == DigitText(ds[1..], rest);
      DigitsRead(10 * n + ds[0], ds[1..], rest);
      Shifted(n, ds[0], Power(|ds| - 1));
    }
  }

  lemma Shifted(n: nat, d: nat, p: nat)
    ensures (10 * n + d) * p == n * (10 * p) + d * p
  {
  }

  lemma {:induction false} NaturalRead(zero: bool, ds: seq<Digit>, rest: string)
    requires ds != [] ==> ds[0] != 0
    requires !IsDigit(Peek(rest)) || (zero && ds == [] && Peek(rest) == '0')
    ensures ReadNatural((if zero then "0" else "") + DigitText(ds, rest)) == (Decimal(ds), rest)
  {
    var digits := DigitText(ds, rest);
    var text := (if zero then "0" else "") + digits;
    if ds != [] {
      assert digits[0] == "0123456789"[ds[0]];
      DigitsRead(0, ds, rest);
    }
    if zero {
      assert text[1..] == digits;
    } else {
      assert text == digits;
    }
  }

  lemma DigitCharacters(c: char)
    ensures c in "0123456789" <==> IsDigit(c)
    ensures c in "123456789" <==> IsDigit(c) && c != '0'
  {
  }

  /** What ends a number for the grammar ends it for the code. */
  lemma NumeralEnds(minus: bool, zero: bool, ds: seq<Digit>, rest: string)
    ensures Ends(Numeral(minus, zero, ds), rest) <==>
              && (!IsDigit(Peek(rest)) || (zero && ds == [] && Peek(rest) == '0')) && !HasFraction(rest)
  {
    DigitCharacters(Peek(rest));
    if rest != "" {
      DigitCharacters(Peek(rest[1..]));
    }
  }

  lemma {:induction false} NumeralRead(minus: bool, zero: bool, ds: seq<Digit>, rest: string)
    requires Legal(Numeral(minus, zero, ds)) && Ends(Numeral(minus, zero, ds), rest)
    ensures var text := Text(Numeral(minus, zero, ds), rest);
            && ParseNumber(text) == Ok(NumeralMeaning(minus, ds), rest)
            && (Peek(text) == '-' || IsDigit(Peek(text)))
  {
    var text := Text(Numeral(minus, zero, ds), rest);
    var unsigned := (if zero then "0" else "") + DigitText(ds, rest);
    assert minus || (unsigned != "" && IsDigit(unsigned[0]));
    assert Unsigned(text) == unsigned;
    NumeralEnds(minus, zero, ds, rest);
    NaturalRead(zero, ds, rest);
  }

  // ----------------------------------------------------------------- values

  lemma SpaceRead(space: string, s: string)
    requires Space(space) && (s != "" ==> !IsSpace(s[0]))
    ensures Skip(space + s) == s
  {
    SkipSpaces(space, s);
  }

  lemma {:induction false} TextStarts(t: Syntax, rest: string)
    requires Legal(t)
    ensures var s := Text(t, rest); s != "" && !IsSpace(s[0]) && s[0] != ']' && s[0] != '}'
  {
    if t.Numeral? {
      NumeralStarts(t.minus, t.zero, t.digits, rest);
    }
  }

  lemma {:induction false} NumeralStarts(minus: bool, zero: bool, ds: seq<Digit>, rest: string)
    requires minus || zero || ds != []
    ensures var s := NumeralText(minus, zero, ds, rest);
            s != "" && (s[0] == '-' || IsDigit(s[0]))
  {
  }

  /** White space and a comma or a bracket may follow any value but an unclosed string. */
  lemma Stops(t: Syntax, after: string, rest: string)
    requires !Unclosed(t) && Space(after) && rest != "" && rest[0] in ",]}"
    ensures Ends(t, after + rest) && Skip(after + rest) == rest
  {
    SpaceRead(after, rest);
  }

  lemma {:induction false} WordRead(t: Syntax, rest: string)
    requires t.NullWord? || t.FalseWord? || t.TrueWord?
    ensures ParseValue(Text(t, rest)) == Ok(Meaning(t), rest)
  {
    WordRoundTrip(Meaning(t), 0, false, rest);
  }

  /** Every legal text is parsed to its meaning, and parsing stops behind it. */
  lemma {:induction false} ValueRead(t: Syntax, rest: string)
    requires Legal(t) && Ends(t, rest)
    ensures ParseValue(Text(t, rest)) == Ok(Meaning(t), rest)
    decreases t, 0
  {
    match t
    case Numeral(minus, zero, ds) =>
      NumeralRead(minus, zero, ds, rest);
      NumberBranch(Text(t, rest));
    case Quoted(q) =>
      QuoteRead(q, rest);
      StringBranch(Text(t, rest));
    case EmptyArray(space) => EmptyArrayRead(space, rest);
    case Elements(items) => ArrayRead(items, rest);
    case EmptyObject(space) => EmptyObjectRead(space, rest);
    case Members(members) => ObjectRead(members, rest);
    case _ => WordRead(t, rest);
  }

  lemma {:induction false} EmptyArrayRead(space: string, rest: string)
    requires Space(space)
    ensures ParseValue("[" + (space + ("]" + rest))) == Ok(Array([]), rest)
  {
    var inside := space + ("]" + rest);
    SpaceRead(space, "]" + rest);
    assert ("[" + inside)[1..] == inside && ("]" + rest)[1..] == rest;
  }

  lemma {:induction false} EmptyObjectRead(space: string, rest: string)
    requires Space(space)
    ensures ParseValue("{" + (space + ("}" + rest))) == Ok(Object([]), rest)
  {
    var inside := space + ("}" + rest);
    SpaceRead(space, "}" + rest);
    assert ("{" + inside)[1..] == inside && ("}" + rest)[1..] == rest;
    ObjectBranch("{" + inside);
  }

  /** An opening bracket in front of what reads as elements. */
  lemma {:induction false} ArrayStep(inside: string, vs: seq<Json>, rest: string)
    requires ParseElems(inside) == Ok(vs, rest) && Peek(Skip(inside)) != ']'
    ensures ParseValue("[" + inside) == Ok(Array(vs), rest)
  {
    assert ("[" + inside)[1..] == inside;
    SkipTwice(inside);
    assert ParseElems(Skip(inside)) == ParseElems(inside);
  }

  lemma {:induction false} ArrayRead(items: Items, rest: string)
    requires LegalItems(items)
    ensures ParseValue("[" + ItemsText(items, rest)) == Ok(Array(ItemsMeaning(items)), rest)
    decreases items, 1
  {
    ItemsRead(items, rest);
    ArrayStep(ItemsText(items, rest), ItemsMeaning(items), rest);
  }

  lemma {:induction false} ElemsStep(s: string, v: Json, rest: string)
    requires ParseValue(Skip(s)) == Ok(v, rest)
    ensures ParseElems(s) == PrependTo(v, MoreElems(Skip(rest)))
  {
  }

  lemma {:induction false} ItemRead(before: string, t: Syntax, after: string, rest: string)
    requires Space(before) && Legal(t) && !Unclosed(t) && Space(after)
    requires rest != "" && rest[0] in ",]"
    ensures var s := before + Text(t, after + rest);
            ParseElems(s) == PrependTo(Meaning(t), MoreElems(rest)) && Peek(Skip(s)) != ']'
    decreases t, 1
  {
    Stops(t, after, rest);
    TextStarts(t, after + rest);
    SpaceRead(before, Text(t, after + rest));
    ValueRead(t, after + rest);
    ElemsStep(before + Text(t, after + rest), Meaning(t), after + rest);
  }

  lemma {:induction false} ItemsRead(items: Items, rest: string)
    requires LegalItems(items)
    ensures ParseElems(ItemsText(items, rest)) == Ok(ItemsMeaning(items), rest)
    ensures Peek(Skip(ItemsText(items, rest))) != ']'
    decreases items, 0
  {
    match items
    case LastItem(before, t, after) =>
      ItemRead(before, t, after, "]" + rest);
      assert ("]" + rest)[1..] == rest && [Meaning(t)] + [] == [Meaning(t)];
    case NextItem(before, t, after, more) =>
      var tail := ItemsText(more, rest);
      ItemsRead(more, rest);
      ItemRead(before, t, after, "," + tail);
      assert ("," + tail)[1..] == tail;
  }

  lemma {:induction false} ObjectStep(inside: string, fields: seq<Field>, rest: string)
    requires ParseFields(inside) == Ok(fields, rest)
    ensures ParseValue("{" + inside) == Ok(Object(fields), rest)
  {
    assert ("{" + inside)[1..] == inside;
    SkippedFields(inside);
    ObjectBranch("{" + inside);
  }

  lemma {:induction false} ObjectRead(members: Members, rest: string)
    requires LegalMembers(members)
    ensures ParseValue("{" + MembersText(members, rest)) == Ok(Object(MembersMeaning(members)), rest)
    decreases members, 1
  {
    MembersRead(members, rest);
    ObjectStep(MembersText(members, rest), MembersMeaning(members), rest);
  }

  lemma {:induction false} KeyRead(key: Key, value: string)
    requires LegalKey(key) && (value != "" ==> !IsSpace(value[0]))
    ensures ParseName(KeyText(key, value)) == Ok(PiecesMeaning(key.quote.pieces), value)
  {
    var colon := ":" + (key.space + value);
    var named := QuoteText(key.quote, key.after + colon);
    SpaceRead(key.before, named);
    QuoteRead(key.quote, key.after + colon);
    SpaceRead(key.after, colon);
    assert colon[1..] == key.space + value;
    SpaceRead(key.space, value);
  }

  lemma {:induction false} FieldsStep(s: string, name: CString, value: string, v: Json, rest: string)
    requires ParseName(s) == Ok(name, value) && ParseValue(value) == Ok(v, rest)
    ensures ParseFields(s) == PrependTo(Field(Some(name), v), MoreFields(Skip(rest)))
  {
    assert ParseField(s) == Ok(Field(Some(name), v), rest);
  }

  lemma {:induction false} MemberRead(key: Key, t: Syntax, after: string, rest: string)
    requires LegalKey(key) && Legal(t) && !Unclosed(t) && Space(after)
    requires rest != "" && rest[0] in ",}"
    ensures var field := Field(Some(PiecesMeaning(key.quote.pieces)), Meaning(t));
            ParseFields(KeyText(key, Text(t, after + rest))) == PrependTo(field, MoreFields(rest))
    decreases t, 1
  {
    var value := Text(t, after + rest);
    Stops(t, after, rest);
    TextStarts(t, after + rest);
    KeyRead(key, value);
    ValueRead(t, after + rest);
    FieldsStep(KeyText(key, value), PiecesMeaning(key.quote.pieces), value, Meaning(t), after + rest);
  }

  lemma {:induction false} MembersRead(members: Members, rest: string)
    requires LegalMembers(members)
    ensures ParseFields(MembersText(members, rest)) == Ok(MembersMeaning(members), rest)
    decreases members, 0
  {
    match members
    case LastMember(key, t, after) =>
      MemberRead(key, t, after, "}" + rest);
      assert ("}" + rest)[1..] == rest;
      assert MembersMeaning(members) + [] == MembersMeaning(members);
    case NextMember(key, t, after, more) =>
      var tail := MembersText(more, rest);
      MembersRead(more, rest);
      MemberRead(key, t, after, "," + tail);
      assert ("," + tail)[1..] == tail;
  }

  // ------------------------------------------- nothing else has a derivation

  lemma {:induction false} SpaceOf(s: string) returns (space: string)
    ensures Space(space) && s == space + Skip(s)
    decreases |s|
  {
    if s != "" && IsSpace(s[0]) {
      space := SpaceOf(s[1..]);
      space := [s[0]] + space;
    } else {
      space := "";
    }
  }

  lemma HexOf(c: char) returns (h: HexDigit)
    requires IsHex(c)
    ensures HexText(h) == [c]
  {
    h := HexDigit(HexValue(c), 'A' <= c <= 'F');
  }

  lemma UnitOf(s: string) returns (p: Piece)
    requires FourHex(s)
    ensures p.Unit? && PieceText(p) == "\\u" + s[..4] && UnitValue(p) == Hex4(s)
  {
    var h1 := HexOf(s[0]);
    var h2 := HexOf(s[1]);
    var h3 := HexOf(s[2]);
    var h4 := HexOf(s[3]);
    p := Unit(h1, h2, h3, h4);
    UnitRead(p, "");
    assert s[..4] == [s[0], s[1], s[2], s[3]];
  }

  lemma {:induction false} OnePiece(p: Piece, ps: seq<Piece>, tail: string)
    ensures PiecesText([p] + ps, tail) == PieceText(p) + PiecesText(ps, tail)
  {
  }

  function Tail(closed: bool, rest: string): string {
    if closed then "\"" + rest else rest
  }

  /** A character or a short escape at the front. */
  lemma {:induction false} FirstPiece(p: string) returns (q: Piece, u: string)
    requires Unescape(p).Ok? && Peek(p) != '\0' && p[0] != '\"'
    requires p[0] == '\\' ==> p[1] != 'u'
    ensures p == PieceText(q) + u && |u| < |p| && Unescape(u).Ok? && Unescape(u).rest == Unescape(p).rest
  {
    if p[0] != '\\' {
      q, u := Plain(p[0]), p[1..];
    } else {
      q, u := Short(p[1]), p[2..];
    }
  }

  lemma {:induction false} PiecesOf(p: string) returns (ps: seq<Piece>, closed: bool)
    requires Unescape(p).Ok?
    ensures p == PiecesText(ps, Tail(closed, Unescape(p).rest))
    ensures closed || Peek(Unescape(p).rest) == '\0'
    decreases |p|
  {
    if Peek(p) == '\0' {
      ps, closed := [], false;
    } else if p[0] == '\"' {
      ps, closed := [], true;
    } else if p[0] == '\\' && p[1] == 'u' {
      ps, closed := UnitsOf(p);
    } else {
      var q, u := FirstPiece(p);
      ps, closed := PiecesOf(u);
      OnePiece(q, ps, Tail(closed, Unescape(p).rest));
      ps := [q] + ps;
    }
  }

  lemma UnitFirst(p: string)
    requires |p| >= 2 && p[0] == '\\' && p[1] == 'u' && Unescape(p).Ok?
    ensures FourHex(p[2..]) && UnicodeEscape(p[2..]).Ok?
    ensures var u := UnicodeEscape(p[2..]).rest;
            |u| < |p| && Unescape(u).Ok? && Unescape(u).rest == Unescape(p).rest
    ensures p == "\\u" + p[2..][..4] + p[2..][4..]
  {
  }

  lemma SecondUnit(s: string)
    requires UnicodeEscape(s).Ok? && UnicodeEscape(s).rest != s[4..]
    ensures |s| >= 10 && s[4] == '\\' && s[5] == 'u' && FourHex(s[6..])
    ensures s[4..] == "\\u" + s[6..][..4] + UnicodeEscape(s).rest
  {
  }

  lemma {:induction false} UnitsOf(p: string) returns (ps: seq<Piece>, closed: bool)
    requires |p| >= 2 && p[0] == '\\' && p[1] == 'u' && Unescape(p).Ok?
    ensures p == PiecesText(ps, Tail(closed, Unescape(p).rest))
    ensures closed || Peek(Unescape(p).rest) == '\0'
    decreases |p|, 0
  {
    var s := p[2..];
    UnitFirst(p);
    var e := UnicodeEscape(s);
    ps, closed := PiecesOf(e.rest);
    var tail := Tail(closed, Unescape(p).rest);
    if e.rest != s[4..] {
      SecondUnit(s);
      var low := UnitOf(s[6..]);
      OnePiece(low, ps, tail);
      ps := [low] + ps;
    }
    var unit := UnitOf(s);
    OnePiece(unit, ps, tail);
    ps := [unit] + ps;
  }

  lemma {:induction false} QuoteOf(s: string) returns (q: Quote)
    requires ParseString(s).Ok?
    ensures s == QuoteText(q, ParseString(s).rest) && (q.closed || Peek(ParseString(s).rest) == '\0')
  {
    var ps, closed := PiecesOf(s[1..]);
    q := Quote(ps, closed);
    assert s == "\"" + s[1..];
  }

  lemma {:induction false} DigitsOf(n: nat, s: string) returns (ds: seq<Digit>)
    ensures s == DigitText(ds, ReadDigits(n, s).1) && !IsDigit(Peek(ReadDigits(n, s).1))
    decreases |s|
  {
    ds := [];
    if IsDigit(Peek(s)) {
      var d := s[0] as int - '0' as int;
      ds := DigitsOf(10 * n + d, s[1..]);
      ds := [d] + ds;
      assert s[0] == "0123456789"[d] && s == [s[0]] + s[1..];
    }
  }

  lemma {:induction false} LeadOf(t: string) returns (ds: seq<Digit>)
    requires '1' <= Peek(t) <= '9'
    ensures ds != [] && ds[0] != 0 && t == DigitText(ds, ReadDigits(0, t).1) && !IsDigit(Peek(ReadDigits(0, t).1))
  {
    ds := DigitsOf(0, t);
    assert t[0] == "0123456789"[ds[0]];
  }

  lemma {:induction false} NaturalOf(s: string) returns (zero: bool, ds: seq<Digit>)
    ensures s == (if zero then "0" else "") + DigitText(ds, ReadNatural(s).1)
    ensures ds != [] ==> ds[0] != 0
    ensures IsDigit(Peek(s)) ==> zero || ds != []
    ensures !IsDigit(Peek(ReadNatural(s).1)) || (zero && ds == [] && Peek(ReadNatural(s).1) == '0')
  {
    zero := Peek(s) == '0';
    var t := if zero then s[1..] else s;
    assert s == (if zero then "0" else "") + t;
    ds := [];
    if '1' <= Peek(t) <= '9' {
      ds := LeadOf(t);
    }
  }

  lemma {:induction false} NumeralOf(s: string) returns (t: Syntax)
    requires ParseNumber(s).Ok? && (Peek(s) == '-' || IsDigit(Peek(s)))
    ensures Legal(t) && Ends(t, ParseNumber(s).rest) && s == Text(t, ParseNumber(s).rest)
  {
    var minus := Peek(s) == '-';
    var zero, ds := NaturalOf(Unsigned(s));
    NaturalRead(zero, ds, ReadNatural(Unsigned(s)).1);
    NumeralEnds(minus, zero, ds, ParseNumber(s).rest);
    t := Numeral(minus, zero, ds);
    assert minus ==> s == "-" + Unsigned(s);
  }

  lemma {:induction false} WordOf(s: string) returns (t: Syntax)
    requires StartsWith(s, "null") || StartsWith(s, "false") || StartsWith(s, "true")
    ensures Legal(t) && ParseValue(s).Ok? && Ends(t, ParseValue(s).rest) && s == Text(t, ParseValue(s).rest)
  {
    t := if StartsWith(s, "null") then NullWord else if StartsWith(s, "false") then FalseWord else TrueWord;
  }

  lemma Branches(s: string)
    requires ParseValue(s).Ok?
    requires !StartsWith(s, "null") && !StartsWith(s, "false") && !StartsWith(s, "true")
    ensures s != ""
    ensures if s[0] == '\"' then ParseString(s).Ok? && ParseString(s).rest == ParseValue(s).rest
            else if s[0] == '[' then ParseArray(s) == ParseValue(s)
            else if s[0] == '{' then ParseObject(s) == ParseValue(s)
            else (s[0] == '-' || IsDigit(s[0])) && ParseNumber(s).Ok? && ParseNumber(s).rest == ParseValue(s).rest
  {
  }

  lemma {:induction false} SyntaxOf(s: string) returns (t: Syntax)
    requires ParseValue(s).Ok?
    ensures Legal(t) && Ends(t, ParseValue(s).rest) && s == Text(t, ParseValue(s).rest)
    decreases |s|, 3
  {
    if StartsWith(s, "null") || StartsWith(s, "false") || StartsWith(s, "true") {
      t := WordOf(s);
    } else {
      Branches(s);
      if s[0] == '\"' {
        var q := QuoteOf(s);
        t := Quoted(q);
      } else if s[0] == '[' {
        t := ArrayOf(s);
      } else if s[0] == '{' {
        t := ObjectOf(s);
      } else {
        t := NumeralOf(s);
      }
    }
  }

  lemma {:induction false} ArrayOf(s: string) returns (t: Syntax)
    requires s != "" && s[0] == '[' && ParseArray(s).Ok?
    ensures Legal(t) && Ends(t, ParseArray(s).rest) && s == Text(t, ParseArray(s).rest)
    decreases |s|, 2
  {
    var inside := s[1..];
    assert s == "[" + inside;
    if Peek(Skip(inside)) == ']' {
      var space := SpaceOf(inside);
      t := EmptyArray(space);
      assert Skip(inside) == "]" + Skip(inside)[1..];
    } else {
      SkipTwice(inside);
      assert ParseElems(Skip(inside)) == ParseElems(inside);
      var items := ItemsOf(inside);
      t := Elements(items);
    }
  }

  lemma FirstAndOthers(s: string)
    requires Peek(s) != '\0'
    ensures s == [Peek(s)] + s[1..]
  {
  }

  /** What stands behind a value that is followed by a comma or a bracket. */
  lemma {:induction false} AfterOf(t: Syntax, rest: string) returns (after: string)
    requires Ends(t, rest) && Peek(Skip(rest)) != '\0'
    ensures !Unclosed(t) && Space(after) && rest == after + ([Peek(Skip(rest))] + Skip(rest)[1..])
  {
    after := SpaceOf(rest);
    FirstAndOthers(Skip(rest));
  }

  lemma ElemsParts(s: string)
    requires ParseElems(s).Ok?
    ensures ParseValue(Skip(s)).Ok?
    ensures var u := Skip(ParseValue(Skip(s)).rest);
            && u != "" && |u| <= |s|
            && (u[0] == ']' || (u[0] == ',' && ParseElems(u[1..]).Ok?))
            && ParseElems(s).rest == if u[0] == ']' then u[1..] else ParseElems(u[1..]).rest
  {
  }

  lemma {:induction false} ItemsOf(s: string) returns (items: Items)
    requires ParseElems(s).Ok?
    ensures LegalItems(items) && s == ItemsText(items, ParseElems(s).rest)
    decreases |s|, 5
  {
    ElemsParts(s);
    var value := Skip(s);
    var rest := ParseValue(value).rest;
    var before := SpaceOf(s);
    var t := SyntaxOf(value);
    var after := AfterOf(t, rest);
    if Peek(Skip(rest)) == ']' {
      items := LastItem(before, t, after);
    } else {
      var more := ItemsOf(Skip(rest)[1..]);
      items := NextItem(before, t, after, more);
    }
  }

  lemma {:induction false} ObjectOf(s: string) returns (t: Syntax)
    requires s != "" && s[0] == '{' && ParseObject(s).Ok?
    ensures Legal(t) && Ends(t, ParseObject(s).rest) && s == Text(t, ParseObject(s).rest)
    decreases |s|, 2
  {
    var inside := s[1..];
    assert s == "{" + inside;
    if Peek(Skip(inside)) == '}' {
      var space := SpaceOf(inside);
      t := EmptyObject(space);
      assert Skip(inside) == "}" + Skip(inside)[1..];
    } else {
      SkippedFields(inside);
      var members := MembersOf(inside);
      t := Members(members);
    }
  }

  lemma {:induction false} ColonOf(s: string) returns (after: string, space: string)
    requires Peek(Skip(s)) == ':'
    ensures Space(after) && Space(space) && s == after + (":" + (space + Skip(Skip(s)[1..])))
  {
    after := SpaceOf(s);
    space := SpaceOf(Skip(s)[1..]);
    assert Skip(s) == ":" + Skip(s)[1..];
  }

  lemma {:induction false} KeyOf(s: string) returns (key: Key)
    requires ParseName(s).Ok?
    ensures LegalKey(key) && s == KeyText(key, ParseName(s).rest)
  {
    var named := Skip(s);
    var before := SpaceOf(s);
    var q := QuoteOf(named);
    var after, space := ColonOf(ParseString(named).rest);
    key := Key(before, q, after, space);
  }

  lemma FieldsParts(s: string)
    requires ParseFields(s).Ok?
    ensures ParseName(s).Ok? && ParseValue(ParseName(s).rest).Ok?
    ensures var u := Skip(ParseValue(ParseName(s).rest).rest);
            && u != "" && |u| <= |s|
            && (u[0] == '}' || (u[0] == ',' && ParseFields(u[1..]).Ok?))
            && ParseFields(s).rest == if u[0] == '}' then u[1..] else ParseFields(u[1..]).rest
  {
  }

  lemma {:induction false} MembersOf(s: string) returns (members: Members)
    requires ParseFields(s).Ok?
    ensures LegalMembers(members) && s == MembersText(members, ParseFields(s).rest)
    decreases |s|, 5
  {
    FieldsParts(s);
    var value := ParseName(s).rest;
    var rest := ParseValue(value).rest;
    var key := KeyOf(s);
    var t := SyntaxOf(value);
    var after := AfterOf(t, rest);
    if Peek(Skip(rest)) == '}' {
      members := LastMember(key, t, after);
    } else {
      var more := MembersOf(Skip(rest)[1..]);
      members := NextMember(key, t, after, more);
    }
  }

  // -------------------------------------------------------------- documents

  /** A text of v, behind white space and in front of what is not read any more. */
  ghost predicate Derives(s: string, v: Json, rest: string) {
    exists space: string, t: Syntax :: Derivation(s, space, t, v, rest)
  }

  predicate Derivation(s: string, space: string, t: Syntax, v: Json, rest: string) {
    Space(space) && Legal(t) && Ends(t, rest) && Meaning(t) == v && s == space + Text(t, rest)
  }

  /** For every text: cJSON_Parse returns a tree with the value v, and stops in front of rest,
      if and only if the text in front of rest is a text of v. So there is never more than
      one such value. */
  lemma {:induction false} ParseExactlyWhen(s: string, v: Json, rest: string)
    ensures Parse(s) == Ok(v, rest) <==> Derives(s, v, rest)
  {
    if Parse(s) == Ok(v, rest) {
      var space := SpaceOf(s);
      var t := SyntaxOf(Skip(s));
      ValueRead(t, rest);
      assert Derivation(s, space, t, v, rest);
    }
    forall space, t | Derivation(s, space, t, v, rest)
      ensures Parse(s) == Ok(v, rest)
    {
      TextStarts(t, rest);
      SpaceRead(space, Text(t, rest));
      ValueRead(t, rest);
    }
  }

  // ------------------------------------------------------ what is left aside

  lemma {:induction false} PiecesInFront(ps: seq<Piece>, tail: string)
    ensures PiecesText(ps, tail) == PiecesText(ps, "") + tail
    decreases |ps|
  {
    if ps != [] {
      PiecesInFront(ps[1..], tail);
      Assoc(PieceText(ps[0]), PiecesText(ps[1..], ""), tail);
    }
  }

  lemma ThreeInFront(a: string, b: string, c: string, rest: string)
    ensures a + (b + (c + rest)) == a + (b + c) + rest
  {
  }

  lemma {:induction false} QuoteInFront(q: Quote, rest: string)
    ensures QuoteText(q, rest) == QuoteText(q, "") + rest
  {
    var end := Tail(q.closed, "");
    assert Tail(q.closed, rest) == end + rest;
    PiecesInFront(q.pieces, end);
    PiecesInFront(q.pieces, end + rest);
    ThreeInFront("\"", PiecesText(q.pieces, ""), end, rest);
  }

  lemma {:induction false} NumeralInFront(minus: bool, zero: bool, ds: seq<Digit>, rest: string)
    ensures NumeralText(minus, zero, ds, rest) == NumeralText(minus, zero, ds, "") + rest
    decreases |ds|
  {
    DigitsInFront(ds, rest);
  }

  lemma {:induction false} DigitsInFront(ds: seq<Digit>, rest: string)
    ensures DigitText(ds, rest) == DigitText(ds, "") + rest
    decreases |ds|
  {
    if ds != [] {
      DigitsInFront(ds[1..], rest);
    }
  }

  /** The text in front of rest is the text alone, in front of rest. */
  lemma {:induction false} InFront(t: Syntax, rest: string)
    requires Legal(t)
    ensures Text(t, rest) == Text(t, "") + rest
    decreases t, 0
  {
    match t
    case Numeral(minus, zero, ds) => NumeralInFront(minus, zero, ds, rest);
    case Quoted(q) => QuoteInFront(q, rest);
    case Elements(items) => ItemsInFront(items, rest);
    case Members(members) => MembersInFront(members, rest);
    case _ =>
  }

  lemma {:induction false} ItemInFront(before: string, t: Syntax, after: string, rest: string)
    requires Legal(t)
    ensures before + Text(t, after + rest) == before + Text(t, "") + after + rest
    decreases t, 1
  {
    InFront(t, after + rest);
  }

  lemma {:induction false} ItemsInFront(items: Items, rest: string)
    requires LegalItems(items)
    ensures ItemsText(items, rest) == ItemsText(items, "") + rest
    decreases items, 0
  {
    match items
    case LastItem(before, t, after) =>
      ItemInFront(before, t, after, "]" + rest);
      ItemInFront(before, t, after, "]" + "");
    case NextItem(before, t, after, more) =>
      ItemsInFront(more, rest);
      ItemInFront(before, t, after, "," + ItemsText(more, rest));
      ItemInFront(before, t, after, "," + ItemsText(more, ""));
  }

  lemma {:induction false} KeyInFront(key: Key, value: string)
    requires LegalKey(key)
    ensures KeyText(key, value) == KeyText(key, "") + value
  {
    QuoteInFront(key.quote, key.after + (":" + (key.space + value)));
    QuoteInFront(key.quote, key.after + (":" + (key.space + "")));
  }

  lemma {:induction false} MemberInFront(key: Key, t: Syntax, after: string, rest: string)
    requires LegalKey(key) && Legal(t)
    ensures KeyText(key, Text(t, after + rest)) == KeyText(key, "") + Text(t, "") + after + rest
    decreases t, 1
  {
    KeyInFront(key, Text(t, after + rest));
    InFront(t, after + rest);
  }

  lemma {:induction false} MembersInFront(members: Members, rest: string)
    requires LegalMembers(members)
    ensures MembersText(members, rest) == MembersText(members, "") + rest
    decreases members, 0
  {
    match members
    case LastMember(key, t, after) =>
      MemberInFront(key, t, after, "}" + rest);
      MemberInFront(key, t, after, "}" + "");
    case NextMember(key, t, after, more) =>
      MembersInFront(more, rest);
      MemberInFront(key, t, after, "," + MembersText(more, rest));
      MemberInFront(key, t, after, "," + MembersText(more, ""));
  }

  /** A backslash that has nothing behind it, or a `u` and not four hexadecimal digits. */
  predicate CutEscape(s: string) {
    s != "" && s[0] == '\\' && (Peek(s[1..]) == '\0' || (s[1] == 'u' && !FourHex(s[2..])))
  }

  /** A number with a fraction or an exponent, or beyond an int. */
  ghost predicate NoInt(s: string) {
    exists minus: bool, zero: bool, ds: seq<Digit>, rest: string ::
      && s == NumeralText(minus, zero, ds, rest) && (minus || zero || ds != [])
      && (HasFraction(rest) || !(INT_MIN <= NumeralMeaning(minus, ds) <= INT_MAX))
  }

  ghost predicate HasCause(s: string) {
    exists i :: 0 <= i <= |s| && Cause(s, i)
  }

  ghost predicate Cause(s: string, i: nat)
    requires i <= |s|
  {
    CutEscape(s[i..]) || NoInt(s[i..])
  }

  lemma CauseBehind(front: string, s: string)
    requires HasCause(s)
    ensures HasCause(front + s)
  {
    var i :| 0 <= i <= |s| && Cause(s, i);
    assert (front + s)[|front| + i..] == s[i..];
    assert Cause(front + s, |front| + i);
  }

  lemma CauseBehindPart(s: string, n: nat)
    requires n <= |s| && HasCause(s[n..])
    ensures HasCause(s)
  {
    CauseBehind(s[..n], s[n..]);
    assert s[..n] + s[n..] == s;
  }

  lemma CauseHere(s: string)
    requires CutEscape(s) || NoInt(s)
    ensures HasCause(s)
  {
    assert s[0..] == s;
    assert Cause(s, 0);
  }

  lemma {:induction false} EscapeCause(p: string)
    requires |p| >= 2 && p[0] == '\\' && p[1] == 'u' && UnicodeEscape(p[2..]).Outside?
    ensures HasCause(p)
  {
    var s := p[2..];
    if !FourHex(s) {
      CauseHere(p);
    } else {
      assert CutEscape(s[4..]);
      CauseHere(s[4..]);
      CauseBehindPart(p, 6);
    }
  }

  lemma {:induction false} StringCause(p: string)
    requires !Unescape(p).Ok?
    ensures HasCause(p)
    decreases |p|
  {
    if p[0] != '\\' {
      StringCause(p[1..]);
      CauseBehindPart(p, 1);
    } else if Peek(p[1..]) == '\0' {
      CauseHere(p);
    } else if p[1] != 'u' {
      StringCause(p[2..]);
      CauseBehindPart(p, 2);
    } else if UnicodeEscape(p[2..]).Outside? {
      EscapeCause(p);
    } else {
      var u := UnicodeEscape(p[2..]).rest;
      StringCause(u);
      CauseBehindPart(p, |p| - |u|);
    }
  }

  lemma {:induction false} NumberCause(s: string)
    requires (Peek(s) == '-' || IsDigit(Peek(s))) && ParseNumber(s).Outside?
    ensures HasCause(s)
  {
    var rest := ReadNatural(Unsigned(s)).1;
    var zero, ds := NaturalOf(Unsigned(s));
    NaturalRead(zero, ds, rest);
    assert Peek(s) == '-' ==> s == "-" + Unsigned(s);
    assert s == NumeralText(Peek(s) == '-', zero, ds, rest);
    assert NoInt(s);
    CauseHere(s);
  }

  lemma {:induction false} SkipCause(s: string)
    requires HasCause(Skip(s))
    ensures HasCause(s)
  {
    var space := SpaceOf(s);
    CauseBehind(space, Skip(s));
  }

  /** A cause behind a value. */
  lemma {:induction false} RestCause(s: string)
    requires ParseValue(s).Ok? && HasCause(ParseValue(s).rest)
    ensures HasCause(s)
  {
    var t := SyntaxOf(s);
    InFront(t, ParseValue(s).rest);
    CauseBehind(Text(t, ""), ParseValue(s).rest);
  }

  lemma {:induction false} NameCause(s: string)
    requires ParseName(s).Ok? && HasCause(ParseName(s).rest)
    ensures HasCause(s)
  {
    var key := KeyOf(s);
    KeyInFront(key, ParseName(s).rest);
    CauseBehind(KeyText(key, ""), ParseName(s).rest);
  }

  lemma {:induction false} ValueCause(s: string)
    requires ParseValue(s).Outside?
    ensures HasCause(s)
    decreases |s|, 3
  {
    if Peek(s) == '\"' {
      StringCause(s[1..]);
      CauseBehindPart(s, 1);
    } else if Peek(s) == '[' {
      ElemsCause(Skip(s[1..]));
      SkipCause(s[1..]);
      CauseBehindPart(s, 1);
    } else if Peek(s) == '{' {
      ObjectBranch(s);
      FieldsCause(Skip(s[1..]));
      SkipCause(s[1..]);
      CauseBehindPart(s, 1);
    } else {
      NumberCause(s);
    }
  }

  lemma {:induction false} ElemsCause(s: string)
    requires ParseElems(s).Outside?
    ensures HasCause(s)
    decreases |s|, 5
  {
    var value := Skip(s);
    if ParseValue(value).Ok? {
      var rest := ParseValue(value).rest;
      ElemsCause(Skip(rest)[1..]);
      CauseBehindPart(Skip(rest), 1);
      SkipCause(rest);
      RestCause(value);
    } else {
      ValueCause(value);
    }
    SkipCause(s);
  }

  lemma {:induction false} FieldsCause(s: string)
    requires ParseFields(s).Outside?
    ensures HasCause(s)
    decreases |s|, 5
  {
    if ParseName(s).Ok? {
      var value := ParseName(s).rest;
      if ParseValue(value).Ok? {
        var rest := ParseValue(value).rest;
        FieldsCause(Skip(rest)[1..]);
        CauseBehindPart(Skip(rest), 1);
        SkipCause(rest);
        RestCause(value);
      } else {
        ValueCause(value);
      }
      NameCause(s);
    } else {
      StringCause(Skip(s)[1..]);
      CauseBehindPart(Skip(s), 1);
      SkipCause(s);
    }
  }

  /** The model leaves aside only texts that hold a cut-off escape or a number that is not an
      int: of any other text that is no text of a value, the code makes null. */
  lemma {:induction false} OutsideHasCause(s: string)
    requires Parse(s).Outside?
    ensures HasCause(s)
  {
    ValueCause(Skip(s));
    SkipCause(s);
  }

  lemma StandardSpaceIsSpace(s: string)
    requires StandardSpace(s)
    ensures Space(s)
  {
    assert forall i | 0 <= i < |s| :: s[i] in s;
  }

  lemma {:induction false} StandardIsLegal(t: Syntax)
    requires Standard(t)
    ensures Legal(t) && !Unclosed(t)
    decreases t
  {
    match t
    case EmptyArray(space) => StandardSpaceIsSpace(space);
    case Elements(items) => StandardItemsLegal(items);
    case EmptyObject(space) => StandardSpaceIsSpace(space);
    case Members(members) => StandardMembersLegal(members);
    case _ =>
  }

  lemma {:induction false} StandardItemsLegal(items: Items)
    requires StandardItems(items)
    ensures LegalItems(items)
    decreases items
  {
    StandardSpaceIsSpace(items.before);
    StandardIsLegal(items.value);
    StandardSpaceIsSpace(items.after);
    if items.NextItem? {
      StandardItemsLegal(items.more);
    }
  }

  lemma {:induction false} StandardMembersLegal(members: Members)
    requires StandardMembers(members)
    ensures LegalMembers(members)
    decreases members
  {
    StandardSpaceIsSpace(members.key.before);
    StandardSpaceIsSpace(members.key.after);
    StandardSpaceIsSpace(members.key.space);
    StandardIsLegal(members.value);
    StandardSpaceIsSpace(members.after);
    if members.NextMember? {
      StandardMembersLegal(members.more);
    }
  }

  /** So every text of RFC 8259 whose numbers are ints is parsed to its value. */
  lemma StandardIsRead(space: string, t: Syntax, rest: string)
    requires StandardSpace(space) && Standard(t) && Ends(t, rest)
    ensures Legal(t) && Parse(space + Text(t, rest)) == Ok(Meaning(t), rest)
  {
    StandardSpaceIsSpace(space);
    StandardIsLegal(t);
    assert Derivation(space + Text(t, rest), space, t, Meaning(t), rest);
    ParseExactlyWhen(space + Text(t, rest), Meaning(t), rest);
  }
}
