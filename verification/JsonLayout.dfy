/** What printed text looks like, told from its characters alone: a reader that goes through the
    text and knows which brackets are open (c++/base/cJSON.c:119-139, 203-236, 282-297,
    328-376 and 415-470). */
module JsonLayout {
  import opened Options
  import opened Sequences
  import opened JsonText
  import opened JsonParse
  import opened JsonRoundTrip

  /** The text behind a string, from behind its opening quote. A quote, a backslash and the
      five controls with a letter of their own come as `\` and a letter, other controls as
      `\u00` and two lower-case digits, and everything else as it is. */
  function BehindString(s: string): (r: Option<string>)
    ensures r.Some? ==> |r.value| < |s|
  {
    if s == "" then None
    else if s[0] == '\"' then Some(s[1..])
    else if s[0] != '\\' then (if s[0] as int < 0x20 then None else BehindString(s[1..]))
    else if |s| >= 2 && s[1] in "\"\\bfnrt" then BehindString(s[2..])
    else if |s| >= 6 && s[1..4] == "u00" && LongEscape(s[4], s[5]) then BehindString(s[6..])
    else None
  }

  /** The digits of a control that has no letter: 01 to 1f, but for 08, 09, 0a, 0c and 0d. */
  predicate LongEscape(high: char, low: char) {
    (high == '0' && low in "1234567bef") || (high == '1' && low in "0123456789abcdef")
  }

  function BehindDigits(s: string): (r: string)
    ensures |r| <= |s|
  {
    if Peek(s) in "0123456789" then BehindDigits(s[1..]) else s
  }

  /** The text behind a number: a zero alone, or digits that begin with another one, perhaps
      behind a minus sign. */
  function BehindNumber(s: string): (r: Option<string>)
    ensures r.Some? ==> |r.value| < |s|
  {
    var digits := if Peek(s) == '-' then s[1..] else s;
    if Peek(digits) in "123456789" then Some(BehindDigits(digits[1..]))
    else if Peek(s) == '0' && Peek(s[1..]) !in "0123456789" then Some(s[1..])
    else None
  }

  /** The text behind a string, a number or a word. */
  function BehindToken(s: string): (r: Option<string>)
    ensures r.Some? ==> |r.value| < |s|
  {
    if Peek(s) == '\"' then BehindString(s[1..])
    else if Peek(s) in "-0123456789" then BehindNumber(s)
    else if StartsWith(s, "null") || StartsWith(s, "true") then Some(s[4..])
    else if StartsWith(s, "false") then Some(s[5..])
    else None
  }

  /** How many tabs the text begins with. */
  function TabsAhead(s: string): (n: nat)
    ensures n <= |s| && forall i | 0 <= i < n :: s[i] == '\t'
    ensures n < |s| ==> s[n] != '\t'
  {
    if s != "" && s[0] == '\t' then 1 + TabsAhead(s[1..]) else 0
  }

  predicate InArray(open: string) {
    open != "" && open[|open| - 1] == '['
  }

  predicate InObject(open: string) {
    open != "" && open[|open| - 1] == '{'
  }

  /** The rest of a printed text inside these open brackets. Unformatted, nothing stands between
      the tokens. Formatted, there is a blank behind the commas of arrays, a tab behind
      colons, and a line break behind the opening braces and the commas of objects and in
      front of their closing braces. */
  predicate Neat(s: string, open: string, fmt: bool)
    decreases |s|, 4
  {
    if s == "" then open == ""
    else if s[0] in "[]{},:\n" then NeatMark(s, open, fmt)
    else BehindToken(s).Some? && Neat(BehindToken(s).value, open, fmt)
  }

  predicate NeatMark(s: string, open: string, fmt: bool)
    requires s != ""
    decreases |s|, 3
  {
    if s[0] == '[' then Neat(s[1..], open + "[", fmt)
    else if s[0] == ']' then InArray(open) && Neat(s[1..], open[..|open| - 1], fmt)
    else if s[0] == '{' then NeatField(s[1..], open + "{", fmt)
    else if s[0] == '}' then !fmt && InObject(open) && Neat(s[1..], open[..|open| - 1], fmt)
    else if s[0] == ',' then
      if InArray(open) && fmt then |s| > 1 && s[1] == ' ' && Neat(s[2..], open, fmt)
      else if InArray(open) then Neat(s[1..], open, fmt)
      else InObject(open) && NeatField(s[1..], open, fmt)
    else if s[0] == ':' then
      if !fmt then Neat(s[1..], open, fmt) else |s| > 1 && s[1] == '\t' && Neat(s[2..], open, fmt)
    else s[0] == '\n' && fmt && Peek(s[1..][TabsAhead(s[1..])..]) == '}' && NeatLine(s[1..], open)
  }

  /** What stands behind the opening brace of an object, or behind one of its commas. */
  predicate NeatField(s: string, open: string, fmt: bool)
    decreases |s|, 6
  {
    if fmt then s != "" && s[0] == '\n' && NeatLine(s[1..], open) else Neat(s, open, fmt)
  }

  /** A line of a formatted object: as many tabs as brackets are open and a name, or one tab
      less and the closing brace. */
  predicate NeatLine(s: string, open: string)
    decreases |s|, 5
  {
    var n := TabsAhead(s);
    if Peek(s[n..]) == '}' then
      InObject(open) && n == |open| - 1 && Neat(s[n + 1..], open[..|open| - 1], true)
    else n == |open| && Peek(s[n..]) in "\":" && Neat(s[n..], open, true)
  }

  // ------------------------------------------------------- printing is neat

  lemma LongEscapeOf(c: char)
    requires 0 < c as int < 0x20 && ShortEscape(c).None?
    ensures LongEscape(HexChar(c as int / 16), HexChar(c as int % 16))
  {
  }

  lemma {:induction false} CharNeat(c: char, s: string)
    requires c != '\0'
    ensures BehindString(EscapeChar(c) + s) == BehindString(s)
  {
    var e := EscapeChar(c) + s;
    if IsPlain(c) {
      assert e[1..] == s;
    } else if ShortEscape(c).Some? {
      assert e[2..] == s;
    } else {
      LongEscapeOf(c);
      assert e[1..4] == "u00" && e[6..] == s;
    }
  }

  lemma {:induction false} EscapedNeat(text: CString, rest: string)
    ensures BehindString(Escape(text) + ("\"" + rest)) == Some(rest)
    decreases |text|
  {
    if text == "" {
      assert Escape(text) + ("\"" + rest) == "\"" + rest;
    } else {
      Assoc(EscapeChar(text[0]), Escape(text[1..]), "\"" + rest);
      CharNeat(text[0], Escape(text[1..]) + ("\"" + rest));
      EscapedNeat(text[1..], rest);
    }
  }

  lemma {:induction false} StringToken(text: CString, rest: string)
    ensures BehindToken(PrintString(Some(text)) + rest) == Some(rest)
  {
    var inside := Escape(text) + ("\"" + rest);
    Assoc("\"" + Escape(text), "\"", rest);
    Assoc("\"", Escape(text), "\"" + rest);
    assert ("\"" + inside)[1..] == inside;
    EscapedNeat(text, rest);
  }

  lemma DigitCharacter(c: char)
    ensures c in "0123456789" <==> IsDigit(c)
    ensures c in "123456789" <==> IsDigit(c) && c != '0'
  {
  }

  lemma {:induction false} DigitsBehind(ds: string, rest: string)
    requires (forall c | c in ds :: IsDigit(c)) && !IsDigit(Peek(rest))
    ensures BehindDigits(ds + rest) == rest
    decreases |ds|
  {
    DigitCharacter(Peek(ds + rest));
    if ds == "" {
      assert ds + rest == rest;
    } else {
      assert (ds + rest)[1..] == ds[1..] + rest;
      DigitsBehind(ds[1..], rest);
    }
  }

  lemma {:induction false} AllDigits(n: nat)
    ensures forall c | c in Digits(n) :: IsDigit(c)
    ensures n < 10 ==> |Digits(n)| == 1
  {
    if n >= 10 {
      AllDigits(n / 10);
    }
  }

  lemma {:induction false} NumberBehind(n: int, rest: string)
    requires !IsDigit(Peek(rest))
    ensures BehindNumber(PrintNumber(n) + rest) == Some(rest)
  {
    var abs := if n < 0 then -n else n;
    var s := PrintNumber(n) + rest;
    var digits := Digits(abs);
    LeadingDigit(abs);
    AllDigits(abs);
    SignRoundTrip(n, rest);
    assert Unsigned(s)[1..] == digits[1..] + rest;
    DigitsBehind(digits[1..], rest);
    DigitCharacter(digits[0]);
    DigitCharacter(Peek(rest));
  }

  lemma {:induction false} NumberToken(n: int, rest: string)
    requires !IsDigit(Peek(rest))
    ensures BehindToken(PrintNumber(n) + rest) == Some(rest)
  {
    NumberBehind(n, rest);
    LeadingDigit(if n < 0 then -n else n);
    DigitCharacter((PrintNumber(n) + rest)[0]);
  }

  lemma WordToken(v: Json, rest: string)
    requires v.Null? || v.False? || v.True?
    ensures BehindToken(Print(v, 0, false) + rest) == Some(rest)
  {
    var word := Print(v, 0, false);
    assert (word + rest)[..|word|] == word && (word + rest)[|word|..] == rest;
  }

  /** The first character of a token is none of those with a branch of their own. */
  lemma TokenNeat(s: string, open: string, fmt: bool)
    requires BehindToken(s).Some?
    ensures Neat(s, open, fmt) == Neat(BehindToken(s).value, open, fmt)
  {
  }

  lemma {:induction false} ScalarNeat(v: Json, open: string, fmt: bool, rest: string)
    requires !v.Array? && !v.Object? && (v.Number? ==> !IsDigit(Peek(rest)))
    ensures Neat(Print(v, |open|, fmt) + rest, open, fmt) == Neat(rest, open, fmt)
  {
    var s := Print(v, |open|, fmt) + rest;
    match v
    case Number(n) =>
      NumberToken(n, rest);
      TokenNeat(s, open, fmt);
    case String(None) => assert s == rest;
    case String(Some(text)) =>
      StringToken(text, rest);
      TokenNeat(s, open, fmt);
    case _ =>
      WordToken(v, rest);
      TokenNeat(s, open, fmt);
  }

  lemma ArrayMarks(s: string, open: string, fmt: bool)
    ensures Neat("[" + s, open, fmt) == Neat(s, open + "[", fmt)
    ensures Neat("]" + s, open + "[", fmt) == Neat(s, open, fmt)
  {
    assert ("[" + s)[1..] == s && ("]" + s)[1..] == s;
    assert (open + "[")[..|open|] == open;
  }

  lemma ArrayComma(s: string, open: string, fmt: bool)
    requires InArray(open)
    ensures Neat(Separator(fmt) + s, open, fmt) == Neat(s, open, fmt)
  {
    var t := Separator(fmt) + s;
    assert fmt ==> t[2..] == s;
    assert !fmt ==> t[1..] == s;
  }

  lemma ObjectMarks(s: string, open: string, fmt: bool)
    ensures Neat("{" + s, open, fmt) == NeatField(s, open + "{", fmt)
    ensures InObject(open) ==> Neat("," + s, open, fmt) == NeatField(s, open, fmt)
  {
    assert ("{" + s)[1..] == s && ("," + s)[1..] == s;
  }

  lemma ColonMark(s: string, open: string, fmt: bool)
    ensures Neat(":" + ((if fmt then "\t" else "") + s), open, fmt) == Neat(s, open, fmt)
  {
    var t := ":" + ((if fmt then "\t" else "") + s);
    assert fmt ==> t[2..] == s;
    assert !fmt ==> t[1..] == s;
  }

  lemma {:induction false} TabsAhead0(n: nat, s: string)
    requires Peek(s) != '\t'
    ensures TabsAhead(Tabs(n) + s) == n && (Tabs(n) + s)[n..] == s
  {
    if n == 0 {
      assert Tabs(n) + s == s;
    } else {
      assert (Tabs(n) + s)[1..] == Tabs(n - 1) + s;
      TabsAhead0(n - 1, s);
    }
  }

  lemma LineNeat(s: string, open: string)
    requires s != "" && s[0] in "\":"
    ensures NeatLine(Tabs(|open|) + s, open) == Neat(s, open, true)
  {
    TabsAhead0(|open|, s);
  }

  lemma ClosingLineNeat(s: string, open: string)
    ensures NeatLine(Tabs(|open|) + ("}" + s), open + "{") == Neat(s, open, true)
  {
    var line := Tabs(|open|) + ("}" + s);
    TabsAhead0(|open|, "}" + s);
    assert line[|open| + 1..] == line[|open|..][1..] == s;
    assert (open + "{")[..|open|] == open;
  }

  lemma CompactCloseNeat(s: string, open: string)
    ensures var end := "}" + s;
            Neat(end, open + "{", false) == NeatField(end, open + "{", false) == Neat(s, open, false)
  {
    assert ("}" + s)[1..] == s && (open + "{")[..|open|] == open;
  }

  lemma BreakCloseNeat(s: string, open: string)
    ensures var end := "\n" + (Tabs(|open|) + ("}" + s));
            Neat(end, open + "{", true) == NeatField(end, open + "{", true) == Neat(s, open, true)
  {
    var line := Tabs(|open|) + ("}" + s);
    TabsAhead0(|open|, "}" + s);
    ClosingLineNeat(s, open);
    assert ("\n" + line)[1..] == line;
  }

  /** The end of an object, behind its last field or right behind its opening brace. */
  lemma CloseNeat(s: string, open: string, fmt: bool)
    ensures var end := LineBreak(fmt) + (ObjectClose(|open|, fmt) + s);
            Neat(end, open + "{", fmt) == NeatField(end, open + "{", fmt) == Neat(s, open, fmt)
  {
    if fmt {
      Assoc(Tabs(|open|), "}", s);
      BreakCloseNeat(s, open);
    } else {
      assert LineBreak(fmt) + (ObjectClose(|open|, fmt) + s) == "}" + s;
      CompactCloseNeat(s, open);
    }
  }

  lemma FieldNeat(s: string, open: string, fmt: bool)
    requires s != "" && s[0] in "\":"
    ensures NeatField(LineBreak(fmt) + ((if fmt then Tabs(|open|) else "") + s), open, fmt) == Neat(s, open, fmt)
  {
    var line := (if fmt then Tabs(|open|) else "") + s;
    assert (LineBreak(fmt) + line)[|LineBreak(fmt)|..] == line;
    if fmt {
      LineNeat(s, open);
    } else {
      assert LineBreak(fmt) + line == s;
    }
  }

  /** Whatever is open, and whatever follows: the text of a value is neat, and leaves the same
      brackets open. */
  lemma {:induction false} ValueNeat(v: Json, open: string, fmt: bool, rest: string)
    requires v.Number? ==> !IsDigit(Peek(rest))
    ensures Neat(Print(v, |open|, fmt) + rest, open, fmt) == Neat(rest, open, fmt)
    decreases v, 0
  {
    match v
    case Array(elems) => ArrayNeat(elems, open, fmt, rest);
    case Object(fields) => ObjectNeat(fields, open, fmt, rest);
    case _ => ScalarNeat(v, open, fmt, rest);
  }

  lemma {:induction false} ArrayNeat(elems: seq<Json>, open: string, fmt: bool, rest: string)
    ensures Neat(Print(Array(elems), |open|, fmt) + rest, open, fmt) == Neat(rest, open, fmt)
    decreases elems, 2
  {
    var inside := PrintElems(elems, |open| + 1, fmt) + "]" + rest;
    ArrayText(elems, |open|, fmt, rest);
    ArrayMarks(inside, open, fmt);
    ArrayMarks(rest, open, fmt);
    if elems == [] {
      assert inside == "]" + rest;
    } else {
      ElemsNeat(elems, open + "[", fmt, rest);
    }
  }

  lemma {:induction false} ElemsNeat(elems: seq<Json>, open: string, fmt: bool, rest: string)
    requires elems != [] && InArray(open)
    ensures Neat(PrintElems(elems, |open|, fmt) + "]" + rest, open, fmt) == Neat("]" + rest, open, fmt)
    decreases elems, 1
  {
    ElemsText(elems, |open|, fmt, rest);
    if |elems| == 1 {
      ValueNeat(elems[0], open, fmt, "]" + rest);
    } else {
      var more := PrintElems(elems[1..], |open|, fmt) + "]" + rest;
      ValueNeat(elems[0], open, fmt, Separator(fmt) + more);
      ArrayComma(more, open, fmt);
      ElemsNeat(elems[1..], open, fmt, rest);
    }
  }

  lemma {:induction false} ObjectNeat(fields: seq<Field>, open: string, fmt: bool, rest: string)
    ensures Neat(Print(Object(fields), |open|, fmt) + rest, open, fmt) == Neat(rest, open, fmt)
    decreases fields, 3
  {
    var close := ObjectClose(|open|, fmt) + rest;
    var inside := PrintFields(fields, |open| + 1, fmt) + close;
    ObjectText(fields, |open|, fmt, rest);
    ObjectMarks(LineBreak(fmt) + inside, open, fmt);
    CloseNeat(rest, open, fmt);
    if fields == [] {
      assert inside == close;
    } else {
      FieldsNeat(fields, open, fmt, rest);
    }
  }

  lemma {:induction false} MemberNeat(field: Field, open: string, fmt: bool, rest: string)
    requires !IsDigit(Peek(rest))
    ensures NeatField(LineBreak(fmt) + (PrintField(field, |open|, fmt) + rest), open, fmt) == Neat(rest, open, fmt)
    decreases field, 1
  {
    var colon := ":" + ((if fmt then "\t" else "") + (Print(field.value, |open|, fmt) + rest));
    FieldText(field, |open|, fmt, rest);
    FieldNeat(PrintString(field.name) + colon, open, fmt);
    assert Print(String(field.name), |open|, fmt) == PrintString(field.name);
    ScalarNeat(String(field.name), open, fmt, colon);
    ColonMark(Print(field.value, |open|, fmt) + rest, open, fmt);
    ValueNeat(field.value, open, fmt, rest);
  }

  lemma {:induction false} FieldsNeat(fields: seq<Field>, open: string, fmt: bool, rest: string)
    requires fields != []
    ensures NeatField(LineBreak(fmt) + (PrintFields(fields, |open| + 1, fmt) + (ObjectClose(|open|, fmt) + rest)),
                      open + "{", fmt)
         == Neat(rest, open, fmt)
    decreases fields, 2
  {
    var close := ObjectClose(|open|, fmt) + rest;
    FieldsText(fields, |open| + 1, fmt, close);
    if |fields| == 1 {
      MemberNeat(fields[0], open + "{", fmt, LineBreak(fmt) + close);
      CloseNeat(rest, open, fmt);
    } else {
      var more := LineBreak(fmt) + (PrintFields(fields[1..], |open| + 1, fmt) + close);
      MemberNeat(fields[0], open + "{", fmt, "," + more);
      ObjectMarks(more, open + "{", fmt);
      FieldsNeat(fields[1..], open, fmt, rest);
    }
  }

  /** What both printers make of any tree is neat. */
  lemma PrintIsNeat(v: Json, fmt: bool)
    ensures Neat(Print(v, 0, fmt), "", fmt)
  {
    ValueNeat(v, "", fmt, "");
    assert Print(v, 0, fmt) + "" == Print(v, 0, fmt);
  }

  /** Null strings print as nothing. */
  lemma NullText()
    ensures Print(Array([String(None)]), 0, true) == "[]"
    ensures Print(Object([Field(None, Null)]), 0, true) == "{\n\t:\tnull\n}"
  {
    var fields := [Field(None, Null)];
    assert Tabs(1) == "\t" && Tabs(0) == "" && fields[1..] == [];
    assert PrintField(fields[0], 1, true) == "\t:\tnull";
  }
}
