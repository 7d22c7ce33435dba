/** Parsing undoes printing, formatted or not, at every depth. */
module JsonRoundTrip {
  import opened Options
  import opened Sequences
  import opened JsonText
  import opened JsonParse

  // ---------------------------------------------------------------- numbers

  lemma {:induction false} ReadPrintedDigits(n: nat, rest: string)
    ensures ReadDigits(0, Digits(n) + rest) == ReadDigits(n, rest)
  {
    if n < 10 {
      assert ([DigitChar(n)] + rest)[1..] == rest;
    } else {
      var last := [DigitChar(n % 10)];
      assert Digits(n) + rest == Digits(n / 10) + (last + rest);
      ReadPrintedDigits(n / 10, last + rest);
      assert (last + rest)[1..] == rest;
    }
  }

  lemma {:induction false} LeadingDigit(n: nat)
    ensures |Digits(n)| > 0 && IsDigit(Digits(n)[0])
    ensures Digits(n)[0] == '0' <==> n == 0
  {
    if n >= 10 {
      LeadingDigit(n / 10);
    }
  }

  /** The text would be read as part of the number n printed in front of it. Behind
      a printed zero that takes a digit other than zero. */
  predicate ExtendsNumber(n: int, rest: string) {
    (IsDigit(Peek(rest)) && !(n == 0 && Peek(rest) == '0')) || HasFraction(rest)
  }

  lemma {:induction false} ReadDigitsAdvances(n: nat, s: string)
    requires IsDigit(Peek(s))
    ensures |ReadDigits(n, s).1| < |s|
    decreases |s|
  {
    if IsDigit(Peek(s[1..])) {
      ReadDigitsAdvances(10 * n + (s[0] as int - '0' as int), s[1..]);
    }
  }

  lemma NaturalRoundTrip(n: nat, rest: string)
    ensures ReadNatural(Digits(n) + rest)
         == if IsDigit(Peek(rest)) && !(n == 0 && Peek(rest) == '0') then ReadDigits(n, rest) else (n, rest)
  {
    LeadingDigit(n);
    ReadPrintedDigits(n, rest);
    if n == 0 {
      assert (Digits(n) + rest)[1..] == rest;
    }
  }

  lemma SignRoundTrip(n: int, rest: string)
    ensures var text := PrintNumber(n) + rest; var abs := if n < 0 then -n else n;
            && Unsigned(text) == Digits(abs) + rest
            && Signed(Peek(text) == '-', abs) == n
  {
    var abs := if n < 0 then -n else n;
    LeadingDigit(abs);
    if n < 0 {
      Assoc("-", Digits(abs), rest);
    }
  }

  /** A printed number is read back, and nothing more, exactly when the text that
      follows does not extend it. */
  lemma NumberRoundTrip(n: int, rest: string)
    requires INT_MIN <= n <= INT_MAX
    ensures ParseNumber(PrintNumber(n) + rest) == Ok(n, rest) <==> !ExtendsNumber(n, rest)
  {
    var abs := if n < 0 then -n else n;
    SignRoundTrip(n, rest);
    NaturalRoundTrip(abs, rest);
    if IsDigit(Peek(rest)) {
      ReadDigitsAdvances(abs, rest);
    }
  }

  // ---------------------------------------------------------------- strings

  lemma HexRoundTrip(c: char)
    requires 0 < c as int < 32
    ensures var s := ['0', '0', HexChar(c as int / 16), HexChar(c as int % 16)];
            FourHex(s) && Hex4(s) == c as int
  {
  }

  /** One escaped character is read back as that character. */
  lemma {:induction false} UnescapeChar(c: char, p: string)
    requires c != '\0'
    ensures Unescape(EscapeChar(c) + p) == Prepend([c], Unescape(p))
  {
    var q := EscapeChar(c) + p;
    if IsPlain(c) {
      assert q[1..] == p;
    } else if ShortEscape(c).Some? {
      assert q[2..] == p;
    } else {
      HexRoundTrip(c);
      assert q[2..][4..] == p;
    }
  }

  lemma {:induction false} UnescapeEscaped(s: string, rest: string)
    requires '\0' !in s
    ensures Unescape(Escape(s) + "\"" + rest) == Ok(s, rest)
  {
    if s == "" {
      assert ("" + "\"" + rest)[1..] == rest;
    } else {
      var p := Escape(s[1..]) + "\"" + rest;
      assert Escape(s) + "\"" + rest == EscapeChar(s[0]) + p;
      UnescapeChar(s[0], p);
      UnescapeEscaped(s[1..], rest);
      assert s == [s[0]] + s[1..];
    }
  }

  lemma QuotedText(e: string, rest: string)
    ensures var text := "\"" + e + "\"" + rest;
            Peek(text) == '\"' && text[1..] == e + "\"" + rest
  {
  }

  lemma StringRoundTrip(s: CString, rest: string)
    ensures ParseString(PrintString(Some(s)) + rest) == Ok(s, rest)
  {
    QuotedText(Escape(s), rest);
    UnescapeEscaped(s, rest);
  }

  // ------------------------------------------------------------- whitespace

  predicate IsSpace(c: char) {
    0 < c as int <= 32
  }

  lemma {:induction false} SkipSpaces(spaces: string, s: string)
    requires forall i | 0 <= i < |spaces| :: IsSpace(spaces[i])
    ensures Skip(spaces + s) == Skip(s)
  {
    if spaces == "" {
      assert spaces + s == s;
    } else {
      assert (spaces + s)[1..] == spaces[1..] + s;
      SkipSpaces(spaces[1..], s);
    }
  }

  lemma PrintStarts(v: Json, depth: nat, fmt: bool)
    requires Printable(v)
    ensures var text := Print(v, depth, fmt);
            && text != "" && !IsSpace(text[0]) && text[0] != ']' && text[0] != '}'
  {
    match v
    case Number(n) => LeadingDigit(if n < 0 then -n else n);
    case _ =>
  }

  // ----------------------------------------------------------------- values

  /** What may follow a printed value without changing how it is read. */
  ghost predicate Separate(v: Json, rest: string) {
    v.Number? ==> !ExtendsNumber(v.n, rest)
  }

  lemma WordRoundTrip(v: Json, depth: nat, fmt: bool, rest: string)
    requires v.Null? || v.False? || v.True?
    ensures ParseValue(Print(v, depth, fmt) + rest) == Ok(v, rest)
  {
    var word := Print(v, depth, fmt);
    assert (word + rest)[..|word|] == word && (word + rest)[|word|..] == rest;
    if v.True? {
      assert (word + rest)[0] == 't';
    } else if v.False? {
      assert (word + rest)[0] == 'f';
    }
  }

  lemma NumberBranch(s: string)
    requires Peek(s) == '-' || IsDigit(Peek(s))
    ensures ParseNumber(s).Ok? ==> ParseValue(s) == Ok(Number(ParseNumber(s).value), ParseNumber(s).rest)
  {
  }

  lemma StringBranch(s: string)
    requires Peek(s) == '\"'
    ensures ParseString(s).Ok? ==> ParseValue(s) == Ok(String(Some(ParseString(s).value)), ParseString(s).rest)
  {
  }

  lemma {:induction false} ValueRoundTrip(v: Json, depth: nat, fmt: bool, rest: string)
    requires Printable(v) && Separate(v, rest)
    ensures ParseValue(Print(v, depth, fmt) + rest) == Ok(v, rest)
    decreases v, 0
  {
    match v
    case Number(n) =>
      LeadingDigit(if n < 0 then -n else n);
      NumberRoundTrip(n, rest);
      NumberBranch(PrintNumber(n) + rest);
    case String(s) =>
      StringRoundTrip(s.value, rest);
      StringBranch(PrintString(s) + rest);
    case Array(elems) => ArrayRoundTrip(elems, depth, fmt, rest);
    case Object(fields) => ObjectRoundTrip(fields, depth, fmt, rest);
    case _ => WordRoundTrip(v, depth, fmt, rest);
  }

  /** An opening bracket followed by elements, or by the closing bracket, is an array. */
  lemma {:induction false} ReadArray(inside: string, elems: seq<Json>, rest: string)
    requires Skip(inside) == inside
    requires if elems == [] then inside == "]" + rest
             else Peek(inside) != ']' && ParseElems(inside) == Ok(elems, rest)
    ensures ParseValue("[" + inside) == Ok(Array(elems), rest)
  {
    assert ("[" + inside)[1..] == inside;
    assert ("]" + rest)[1..] == rest;
  }

  lemma ArrayText(elems: seq<Json>, depth: nat, fmt: bool, rest: string)
    ensures Print(Array(elems), depth, fmt) + rest == "[" + (PrintElems(elems, depth + 1, fmt) + "]" + rest)
  {
    var inside := PrintElems(elems, depth + 1, fmt);
    Assoc("[" + inside, "]", rest);
    Assoc("[", inside, "]" + rest);
    Assoc(inside, "]", rest);
  }

  lemma {:induction false} ArrayRoundTrip(elems: seq<Json>, depth: nat, fmt: bool, rest: string)
    requires forall i | 0 <= i < |elems| :: Printable(elems[i])
    ensures ParseValue(Print(Array(elems), depth, fmt) + rest) == Ok(Array(elems), rest)
    decreases elems, 2
  {
    ArrayText(elems, depth, fmt, rest);
    if elems != [] {
      ElemsStart(elems, depth + 1, fmt, rest);
      ElemsRoundTrip(elems, depth + 1, fmt, rest);
    }
    ReadArray(PrintElems(elems, depth + 1, fmt) + "]" + rest, elems, rest);
  }

  lemma Nested(a: string, b: string, c: string, d: string, e: string)
    ensures a + b + c + d + e == a + (b + (c + d + e))
  {
  }

  lemma ElemsText(elems: seq<Json>, depth: nat, fmt: bool, rest: string)
    requires elems != []
    ensures PrintElems(elems, depth, fmt) + "]" + rest
         == Print(elems[0], depth, fmt)
            + (if |elems| == 1 then "]" + rest
               else Separator(fmt) + (PrintElems(elems[1..], depth, fmt) + "]" + rest))
  {
    var first := Print(elems[0], depth, fmt);
    if |elems| > 1 {
      var more := PrintElems(elems[1..], depth, fmt);
      Nested(first, Separator(fmt), more, "]", rest);
    }
  }

  lemma LastElem(s: string, v: Json, rest: string)
    requires Skip(s) == s && ParseValue(s) == Ok(v, "]" + rest)
    ensures ParseElems(s) == Ok([v], rest)
  {
    assert ("]" + rest)[1..] == rest;
    assert [v] + [] == [v];
  }

  lemma {:induction false} NextElem(s: string, v: Json, fmt: bool, more: string, vs: seq<Json>, rest: string)
    requires Skip(s) == s && ParseValue(s) == Ok(v, Separator(fmt) + more)
    requires ParseElems(more) == Ok(vs, rest)
    ensures ParseElems(s) == Ok([v] + vs, rest)
  {
    var spaces := Separator(fmt)[1..];
    assert (Separator(fmt) + more)[1..] == spaces + more;
    SkipSpaces(spaces, more);
    assert ParseElems(spaces + more) == ParseElems(more);
  }

  lemma ElemsStart(elems: seq<Json>, depth: nat, fmt: bool, rest: string)
    requires elems != [] && Printable(elems[0])
    ensures var text := PrintElems(elems, depth, fmt) + "]" + rest; Skip(text) == text && Peek(text) != ']'
  {
    PrintStarts(elems[0], depth, fmt);
  }

  lemma {:induction false} LastElemRoundTrip(v: Json, depth: nat, fmt: bool, rest: string)
    requires Printable(v)
    ensures ParseElems(Print(v, depth, fmt) + ("]" + rest)) == Ok([v], rest)
    decreases v, 1
  {
    EndsNumber(v, "]" + rest);
    PrintStarts(v, depth, fmt);
    ValueRoundTrip(v, depth, fmt, "]" + rest);
    LastElem(Print(v, depth, fmt) + ("]" + rest), v, rest);
  }

  lemma {:induction false} NextElemRoundTrip(v: Json, depth: nat, fmt: bool, more: string, vs: seq<Json>, rest: string)
    requires Printable(v) && ParseElems(more) == Ok(vs, rest)
    ensures ParseElems(Print(v, depth, fmt) + (Separator(fmt) + more)) == Ok([v] + vs, rest)
    decreases v, 1
  {
    var after := Separator(fmt) + more;
    EndsNumber(v, after);
    PrintStarts(v, depth, fmt);
    ValueRoundTrip(v, depth, fmt, after);
    NextElem(Print(v, depth, fmt) + after, v, fmt, more, vs, rest);
  }

  lemma {:induction false} ElemsRoundTrip(elems: seq<Json>, depth: nat, fmt: bool, rest: string)
    requires elems != [] && forall i | 0 <= i < |elems| :: Printable(elems[i])
    ensures ParseElems(PrintElems(elems, depth, fmt) + "]" + rest) == Ok(elems, rest)
    decreases elems, 1
  {
    ElemsText(elems, depth, fmt, rest);
    assert Printable(elems[0]);
    if |elems| == 1 {
      LastElemRoundTrip(elems[0], depth, fmt, rest);
      assert elems == [elems[0]];
    } else {
      var more := PrintElems(elems[1..], depth, fmt) + "]" + rest;
      ElemsRoundTrip(elems[1..], depth, fmt, rest);
      NextElemRoundTrip(elems[0], depth, fmt, more, elems[1..], rest);
      assert elems == [elems[0]] + elems[1..];
    }
  }

  lemma {:induction false} ObjectBranch(s: string)
    requires Peek(s) == '{'
    ensures ParseValue(s) == ParseObject(s)
  {
  }

  lemma ReadObject(fmt: bool, inside: string, fields: seq<Field>, rest: string)
    requires if fields == [] then Skip(inside) == "}" + rest else ParseFields(inside) == Ok(fields, rest)
    ensures ParseObject("{" + (LineBreak(fmt) + inside)) == Ok(Object(fields), rest)
  {
    var s := "{" + (LineBreak(fmt) + inside);
    assert s[1..] == LineBreak(fmt) + inside;
    assert ("}" + rest)[1..] == rest;
    SkipSpaces(LineBreak(fmt), inside);
    if fields != [] {
      SkippedFields(inside);
    }
  }

  lemma ObjectText(fields: seq<Field>, depth: nat, fmt: bool, rest: string)
    ensures Print(Object(fields), depth, fmt) + rest
         == "{" + (LineBreak(fmt) + (PrintFields(fields, depth + 1, fmt) + (ObjectClose(depth, fmt) + rest)))
  {
    var inside := PrintFields(fields, depth + 1, fmt);
    var close := ObjectClose(depth, fmt);
    Assoc(ObjectOpen(fmt) + inside, close, rest);
    Assoc(ObjectOpen(fmt), inside, close + rest);
    assert ObjectOpen(fmt) == "{" + LineBreak(fmt);
    Assoc("{", LineBreak(fmt), inside + (close + rest));
  }

  lemma {:induction false} ObjectRoundTrip(fields: seq<Field>, depth: nat, fmt: bool, rest: string)
    requires forall i | 0 <= i < |fields| :: fields[i].name.Some? && Printable(fields[i].value)
    ensures ParseValue(Print(Object(fields), depth, fmt) + rest) == Ok(Object(fields), rest)
    decreases fields, 3
  {
    var inside := PrintFields(fields, depth + 1, fmt) + (ObjectClose(depth, fmt) + rest);
    ObjectText(fields, depth, fmt, rest);
    if fields == [] {
      assert inside == ObjectClose(depth, fmt) + rest;
      SkipClose(depth, fmt, rest);
    } else {
      FieldsRoundTrip(fields, depth, fmt, rest);
    }
    ReadObject(fmt, inside, fields, rest);
    ObjectBranch("{" + (LineBreak(fmt) + inside));
  }

  function LineBreak(fmt: bool): string {
    if fmt then "\n" else ""
  }

  lemma SkipClose(depth: nat, fmt: bool, rest: string)
    ensures Skip(ObjectClose(depth, fmt) + rest) == "}" + rest && ("}" + rest)[1..] == rest
  {
    var tabs := if fmt then Tabs(depth) else "";
    assert ObjectClose(depth, fmt) + rest == tabs + ("}" + rest);
    SkipSpaces(tabs, "}" + rest);
  }

  lemma {:induction false} SkipTwice(s: string)
    ensures Skip(Skip(s)) == Skip(s)
    decreases |s|
  {
    if s != "" && IsSpace(s[0]) {
      SkipTwice(s[1..]);
    }
  }

  /** White space in front of a field is stepped over; a field does not start with a brace. */
  lemma SkippedFields(s: string)
    ensures ParseFields(Skip(s)) == ParseFields(s)
    ensures ParseFields(s).Ok? ==> Peek(Skip(s)) != '}'
  {
    SkipTwice(s);
    assert ParseField(Skip(s)) == ParseField(s);
  }

  lemma FieldText(field: Field, depth: nat, fmt: bool, rest: string)
    ensures PrintField(field, depth, fmt) + rest
         == (if fmt then Tabs(depth) else "")
            + (PrintString(field.name) + (":" + ((if fmt then "\t" else "") + (Print(field.value, depth, fmt) + rest))))
  {
    var tabs := if fmt then Tabs(depth) else "";
    var name := PrintString(field.name);
    var value := Print(field.value, depth, fmt);
    var gap := if fmt then "\t" else "";
    Assoc(FieldLead(field.name, depth, fmt), value, rest);
    assert (if fmt then ":\t" else ":") == ":" + gap;
    Assoc(tabs + name, ":" + gap, value + rest);
    Assoc(tabs, name, ":" + gap + (value + rest));
    Assoc(":", gap, value + rest);
  }

  /** `"name":value` between any white space is read as that field. */
  lemma {:induction false} ReadField(tabs: string, name: CString, gap: string, value: string, v: Json, rest: string)
    requires forall i | 0 <= i < |tabs| :: IsSpace(tabs[i])
    requires forall i | 0 <= i < |gap| :: IsSpace(gap[i])
    requires Skip(value) == value && ParseValue(value) == Ok(v, rest)
    ensures ParseField(tabs + (PrintString(Some(name)) + (":" + (gap + value)))) == Ok(Field(Some(name), v), rest)
  {
    var colon := ":" + (gap + value);
    var named := PrintString(Some(name)) + colon;
    SkipSpaces(tabs, named);
    assert named[0] == '\"';
    StringRoundTrip(name, colon);
    assert colon[1..] == gap + value;
    SkipSpaces(gap, value);
  }

  lemma {:induction false} FieldRoundTrip(field: Field, depth: nat, fmt: bool, rest: string)
    requires field.name.Some? && Printable(field.value) && Separate(field.value, rest)
    ensures ParseField(PrintField(field, depth, fmt) + rest) == Ok(field, rest)
    decreases field, 1
  {
    var tabs := if fmt then Tabs(depth) else "";
    var gap := if fmt then "\t" else "";
    var value := Print(field.value, depth, fmt) + rest;
    FieldText(field, depth, fmt, rest);
    PrintStarts(field.value, depth, fmt);
    ValueRoundTrip(field.value, depth, fmt, rest);
    ReadField(tabs, field.name.value, gap, value, field.value, rest);
  }

  lemma FieldsText(fields: seq<Field>, depth: nat, fmt: bool, rest: string)
    requires fields != []
    ensures PrintFields(fields, depth, fmt) + rest
         == PrintField(fields[0], depth, fmt)
            + (if |fields| == 1 then LineBreak(fmt) + rest
               else "," + (LineBreak(fmt) + (PrintFields(fields[1..], depth, fmt) + rest)))
  {
    var first := PrintField(fields[0], depth, fmt);
    var more := PrintFields(fields[1..], depth, fmt);
    var tail := FieldTail(|fields| == 1, fmt);
    Assoc(first + tail, more, rest);
    Assoc(first, tail, more + rest);
    if |fields| == 1 {
      assert more + rest == rest && tail == LineBreak(fmt);
    } else {
      assert tail == "," + LineBreak(fmt);
      Assoc(",", LineBreak(fmt), more + rest);
    }
  }

  lemma LastField(s: string, field: Field, depth: nat, fmt: bool, rest: string)
    requires ParseField(s) == Ok(field, LineBreak(fmt) + (ObjectClose(depth, fmt) + rest))
    ensures ParseFields(s) == Ok([field], rest)
  {
    SkipSpaces(LineBreak(fmt), ObjectClose(depth, fmt) + rest);
    SkipClose(depth, fmt, rest);
    assert [field] + [] == [field];
  }

  lemma {:induction false} NextField(s: string, field: Field, fmt: bool, more: string, fields: seq<Field>, rest: string)
    requires ParseField(s) == Ok(field, "," + (LineBreak(fmt) + more))
    requires ParseFields(more) == Ok(fields, rest)
    ensures ParseFields(s) == Ok([field] + fields, rest)
  {
    var after := LineBreak(fmt) + more;
    assert ("," + after)[1..] == after;
    SkipSpaces(LineBreak(fmt), more);
    SkippedFields(after);
    SkippedFields(more);
  }

  lemma EndsNumber(v: Json, rest: string)
    requires rest != "" && rest[0] in ",]}\n\t"
    ensures Separate(v, rest)
  {
  }

  lemma {:induction false} LastFieldRoundTrip(field: Field, depth: nat, fmt: bool, rest: string)
    requires field.name.Some? && Printable(field.value)
    ensures ParseFields(PrintField(field, depth + 1, fmt) + (LineBreak(fmt) + (ObjectClose(depth, fmt) + rest)))
         == Ok([field], rest)
    decreases field, 2
  {
    var after := LineBreak(fmt) + (ObjectClose(depth, fmt) + rest);
    assert after[0] == if fmt then '\n' else '}';
    EndsNumber(field.value, after);
    FieldRoundTrip(field, depth + 1, fmt, after);
    LastField(PrintField(field, depth + 1, fmt) + after, field, depth, fmt, rest);
  }

  lemma {:induction false} NextFieldRoundTrip(
    field: Field, depth: nat, fmt: bool, more: string, fields: seq<Field>, rest: string)
    requires field.name.Some? && Printable(field.value)
    requires ParseFields(more) == Ok(fields, rest)
    ensures ParseFields(PrintField(field, depth, fmt) + ("," + (LineBreak(fmt) + more))) == Ok([field] + fields, rest)
    decreases field, 2
  {
    var after := "," + (LineBreak(fmt) + more);
    EndsNumber(field.value, after);
    FieldRoundTrip(field, depth, fmt, after);
    NextField(PrintField(field, depth, fmt) + after, field, fmt, more, fields, rest);
  }

  lemma {:induction false} FieldsRoundTrip(fields: seq<Field>, depth: nat, fmt: bool, rest: string)
    requires fields != []
    requires forall i | 0 <= i < |fields| :: fields[i].name.Some? && Printable(fields[i].value)
    ensures ParseFields(PrintFields(fields, depth + 1, fmt) + (ObjectClose(depth, fmt) + rest)) == Ok(fields, rest)
    decreases fields, 2
  {
    FieldsText(fields, depth + 1, fmt, ObjectClose(depth, fmt) + rest);
    if |fields| == 1 {
      LastFieldRoundTrip(fields[0], depth, fmt, rest);
      assert fields == [fields[0]];
    } else {
      var more := PrintFields(fields[1..], depth + 1, fmt) + (ObjectClose(depth, fmt) + rest);
      FieldsRoundTrip(fields[1..], depth, fmt, rest);
      NextFieldRoundTrip(fields[0], depth + 1, fmt, more, fields[1..], rest);
      assert fields == [fields[0]] + fields[1..];
    }
  }

  // -------------------------------------------------------------- documents

  lemma {:induction false} ParsedValuePrintable(s: string)
    requires ParseValue(s).Ok?
    ensures Printable(ParseValue(s).value)
    decreases |s|, 3
  {
    if Peek(s) == '[' && Peek(Skip(s[1..])) != ']' {
      ParsedElemsPrintable(Skip(s[1..]));
    } else if Peek(s) == '{' && Peek(Skip(s[1..])) != '}' {
      ParsedFieldsPrintable(Skip(s[1..]));
    }
  }

  lemma {:induction false} ParsedElemsPrintable(s: string)
    requires ParseElems(s).Ok?
    ensures forall v | v in ParseElems(s).value :: Printable(v)
    decreases |s|, 5
  {
    ParsedValuePrintable(Skip(s));
    var t := Skip(ParseValue(Skip(s)).rest);
    if Peek(t) == ',' {
      ParsedElemsPrintable(t[1..]);
    }
  }

  lemma {:induction false} ParsedFieldsPrintable(s: string)
    requires ParseFields(s).Ok?
    ensures forall f | f in ParseFields(s).value :: f.name.Some? && Printable(f.value)
    decreases |s|, 5
  {
    var colon := Skip(ParseString(Skip(s)).rest);
    ParsedValuePrintable(Skip(colon[1..]));
    var t := Skip(ParseField(s).rest);
    if Peek(t) == ',' {
      ParsedFieldsPrintable(t[1..]);
    }
  }

  /** cJSON_Parse(cJSON_Print(v)) and cJSON_Parse(cJSON_PrintUnformatted(v)) give v
      back exactly when v has no null string and no number beyond an int. */
  lemma PrintThenParse(v: Json, fmt: bool)
    ensures Parse(Print(v, 0, fmt)) == Ok(v, "") <==> Printable(v)
  {
    var text := Print(v, 0, fmt);
    if Printable(v) {
      PrintStarts(v, 0, fmt);
      assert text + "" == text;
      ValueRoundTrip(v, 0, fmt, "");
    } else if Parse(text).Ok? {
      ParsedValuePrintable(Skip(text));
    }
  }

  /** Formatting is for the reader only: both texts hold the same value. */
  lemma FormattingKeepsMeaning(v: Json)
    requires Printable(v)
    ensures Parse(Print(v, 0, true)) == Parse(Print(v, 0, false))
  {
    PrintThenParse(v, true);
    PrintThenParse(v, false);
  }
}
