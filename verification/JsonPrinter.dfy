/** The print_* routines of cJSON: each computes how many bytes its text needs,
    allocates them and fills them in (c++/base/cJSON.c:119-139, 203-236, 282-297, 328-376
    and 415-470). Every store is checked to lie inside the allocated block. */
module JsonPrinter {
  import opened Options
  import opened Sequences
  import opened JsonText
  import opened JsonTree

  /** The block holds s and its terminator. */
  ghost predicate Holds(out: array<char>, s: string)
    reads out
  {
    |s| < out.Length && out[..|s|] == s && out[|s|] == '\0'
  }

  lemma EscapeStep(s: string)
    requires s != ""
    ensures Escape(s) == EscapeChar(s[0]) + Escape(s[1..])
    ensures |Escape(s)| == |EscapeChar(s[0])| + |Escape(s[1..])|
  {
  }

  /** Line 208. */
  method EscapedLength(str: CString) returns (len: nat)
    ensures len == |Escape(str)|
  {
    var ptr: string := str;
    len := 0;
    while Peek(ptr) != '\0'
      invariant '\0' !in ptr && len + |Escape(ptr)| == |Escape(str)|
      decreases |ptr|
    {
      var token := ptr[0];
      EscapeStep(ptr);
      len := len + 1;
      if token in "\"\\\n\r\t" || token as int == 8 || token as int == 12 {
        len := len + 1;
      } else if token as int < 32 {
        len := len + 5;
      }
      ptr := ptr[1..];
    }
  }

  /** The closing character and the terminator. */
  method PutEnd(out: array<char>, at: nat, c: char)
    requires at + 1 < out.Length
    modifies out
    ensures Holds(out, old(out[..at]) + [c])
  {
    out[at] := c;
    out[at + 1] := '\0';
  }

  /** print_string_ptr. The count is exact: text and terminator fill the block. A null
      string gives an empty text. */
  method PrintStringPtr(str: Option<CString>) returns (out: array<char>)
    ensures fresh(out) && Holds(out, PrintString(str))
    ensures out.Length == |PrintString(str)| + 1
  {
    if str.None? {
      out := new char[1];
      out[0] := '\0';
      return;
    }
    var ptr: string := str.value;
    var len := EscapedLength(ptr);
    out := new char[len + 3];
    out[0] := '\"';
    var ptr2 := 1;
    ghost var whole := PrintString(str);
    while Peek(ptr) != '\0'
      invariant '\0' !in ptr && 0 <= ptr2 <= ptr2 + |Escape(ptr)| == len + 1
      invariant out[..ptr2] + (Escape(ptr) + "\"") == whole
      decreases |ptr|
    {
      EscapeStep(ptr);
      ghost var written := out[..ptr2];
      ptr2 := PutEscaped(out, ptr2, ptr[0]);
      InTheMiddle(written, EscapeChar(ptr[0]), Escape(ptr[1..]), "\"");
      ptr := ptr[1..];
    }
    PutEnd(out, ptr2, '\"');
  }

  lemma InTheMiddle(a: string, b: string, c: string, d: string)
    ensures a + ((b + c) + d) == (a + b) + (c + d)
  {
  }

  /** One round of the filling loop; `%04x` writes a terminator of its own. */
  method PutEscaped(out: array<char>, at: nat, token: char) returns (ptr2: nat)
    requires token != '\0' && at + |EscapeChar(token)| < out.Length
    modifies out
    ensures ptr2 == at + |EscapeChar(token)| && out[..ptr2] == old(out[..at]) + EscapeChar(token)
  {
    if IsPlain(token) {
      out[at] := token;
      ptr2 := at + 1;
    } else {
      out[at] := '\\';
      match ShortEscape(token)
      case Some(letter) =>
        out[at + 1] := letter;
        ptr2 := at + 2;
      case None =>
        out[at + 1], out[at + 2], out[at + 3] := 'u', '0', '0';
        out[at + 4], out[at + 5] := HexChar(token as int / 16), HexChar(token as int % 16);
        out[at + 6] := '\0';
        ptr2 := at + 6;
    }
  }

  // ------------------------------------------------------------- C library

  /** strlen. */
  method StrLen(text: array<char>, ghost s: string) returns (n: nat)
    requires Holds(text, s) && '\0' !in s
    ensures n == |s|
  {
    n := 0;
    while text[n] != '\0'
      invariant 0 <= n <= |s|
      decreases |s| - n
    {
      assert text[..|s|][n] == s[n];
      n := n + 1;
    }
  }

  /** strcpy to out+at. */
  method StrCpy(out: array<char>, at: nat, text: array<char>, ghost s: string)
    requires Holds(text, s) && '\0' !in s && at + |s| < out.Length && out != text
    modifies out
    ensures out[..at + |s|] == old(out[..at]) + s && out[at + |s|] == '\0'
  {
    var i := 0;
    while text[i] != '\0'
      invariant 0 <= i <= |s|
      invariant out[..at + i] == old(out[..at]) + s[..i]
      decreases |s| - i
    {
      assert text[..|s|][i] == s[i];
      out[at + i] := text[i];
      i := i + 1;
    }
    out[at + i] := '\0';
  }

  // -------------------------------------------------- composing the entries

  /** What the entries of an array add to its length. */
  ghost function ElemsNeed(texts: seq<string>, fmt: bool): nat {
    if texts == [] then 0
    else ElemsNeed(texts[..|texts| - 1], fmt) + |texts[|texts| - 1]| + 2 + (if fmt then 1 else 0)
  }

  lemma {:induction false} ElemsNeedGrows(texts: seq<string>, i: nat, fmt: bool)
    requires i < |texts|
    ensures ElemsNeed(texts[..i + 1], fmt) == ElemsNeed(texts[..i], fmt) + |texts[i]| + 2 + (if fmt then 1 else 0)
    ensures ElemsNeed(texts[..i + 1], fmt) <= ElemsNeed(texts, fmt)
    decreases |texts| - i
  {
    assert texts[..i + 1][..i] == texts[..i];
    if i + 1 < |texts| {
      ElemsNeedGrows(texts, i + 1, fmt);
    } else {
      assert texts[..i + 1] == texts;
    }
  }

  /** The texts with separators in between. */
  ghost function JoinElems(texts: seq<string>, fmt: bool): string {
    if |texts| == 0 then ""
    else if |texts| == 1 then texts[0]
    else texts[0] + Separator(fmt) + JoinElems(texts[1..], fmt)
  }

  /** A block with a text that ends at its terminator. */
  ghost predicate Held(out: array<char>, s: string)
    reads out
  {
    Holds(out, s) && '\0' !in s
  }

  ghost predicate AllHold(entries: seq<array<char>>, texts: seq<string>)
    reads entries
  {
    |entries| == |texts| && forall i | 0 <= i < |texts| :: Held(entries[i], texts[i])
  }

  lemma HoldMore(entries: seq<array<char>>, texts: seq<string>, i: nat, entry: array<char>)
    requires i < |texts| && AllHold(entries, texts[..i]) && Held(entry, texts[i])
    ensures AllHold(entries + [entry], texts[..i + 1])
  {
  }

  /** One entry of an array with the separator behind it. */
  ghost function ElemText(text: string, last: bool, fmt: bool): string {
    text + (if last then "" else Separator(fmt))
  }

  lemma JoinStep(texts: seq<string>, i: nat, fmt: bool, written: string)
    requires i < |texts|
    ensures written + JoinElems(texts[i..], fmt)
         == written + ElemText(texts[i], i == |texts| - 1, fmt) + JoinElems(texts[i + 1..], fmt)
  {
    assert texts[i..][1..] == texts[i + 1..];
    assert written + (texts[i] + Separator(fmt) + JoinElems(texts[i + 1..], fmt))
        == written + (texts[i] + Separator(fmt)) + JoinElems(texts[i + 1..], fmt);
  }

  method PutElem(out: array<char>, at: nat, entry: array<char>, last: bool, fmt: bool, ghost text: string)
    returns (ptr: nat)
    requires Holds(entry, text) && '\0' !in text && entry != out
    requires at + |text| + 3 < out.Length
    modifies out
    ensures ptr == at + |ElemText(text, last, fmt)| && out[..ptr] == old(out[..at]) + ElemText(text, last, fmt)
  {
    StrCpy(out, at, entry, text);
    var n := StrLen(entry, text);
    ptr := at + n;
    if !last {
      out[ptr] := ',';
      ptr := ptr + 1;
      if fmt {
        out[ptr] := ' ';
        ptr := ptr + 1;
      }
      out[ptr] := '\0';
    }
  }

  /** The loop of lines 367 to 372. */
  method PutElems(out: array<char>, at: nat, entries: seq<array<char>>, fmt: bool, ghost texts: seq<string>)
    returns (ptr: nat)
    requires AllHold(entries, texts) && out !in entries
    requires at + ElemsNeed(texts, fmt) + 3 < out.Length
    modifies out
    ensures at <= ptr <= at + ElemsNeed(texts, fmt)
    ensures out[..ptr] == old(out[..at]) + JoinElems(texts, fmt)
  {
    ptr := at;
    var i := 0;
    ghost var room, rest := 0, JoinElems(texts, fmt);
    ghost var whole := out[..ptr] + rest;
    assert texts[0..] == texts && texts[..0] == [];
    while i < |entries|
      invariant 0 <= i <= |entries|
      invariant room == ElemsNeed(texts[..i], fmt)
      invariant room <= ElemsNeed(texts, fmt) && at <= ptr <= at + room
      invariant rest == JoinElems(texts[i..], fmt) && out[..ptr] + rest == whole
    {
      ElemsNeedGrows(texts, i, fmt);
      JoinStep(texts, i, fmt, out[..ptr]);
      assert entries[i] in entries;
      ptr := PutElem(out, ptr, entries[i], i == |entries| - 1, fmt, texts[i]);
      i := i + 1;
      room, rest := ElemsNeed(texts[..i], fmt), JoinElems(texts[i..], fmt);
    }
    assert rest == "";
  }

  /** The second half of print_array, lines 352 to 375. */
  method ComposeArray(entries: seq<array<char>>, len: nat, fmt: bool, ghost texts: seq<string>)
    returns (out: array<char>)
    requires AllHold(entries, texts) && len == 5 + ElemsNeed(texts, fmt)
    ensures fresh(out) && Holds(out, "[" + JoinElems(texts, fmt) + "]")
  {
    out := new char[len];
    out[0] := '[';
    out[1] := '\0';
    assert out[..1] == "[" && out !in entries;
    var ptr := PutElems(out, 1, entries, fmt, texts);
    PutEnd(out, ptr, ']');
  }

  /** What the fields of an object that opens its braces `depth` levels in add to its
      length. */
  ghost function FieldsNeed(names: seq<string>, texts: seq<string>, depth: nat, fmt: bool): nat
    requires |names| == |texts|
  {
    if texts == [] then 0
    else
      var n := |texts| - 1;
      FieldsNeed(names[..n], texts[..n], depth, fmt) + |texts[n]| + |names[n]| + 2 + (if fmt then 2 + depth else 0)
  }

  lemma {:induction false} FieldsNeedGrows(names: seq<string>, texts: seq<string>, i: nat, depth: nat, fmt: bool)
    requires |names| == |texts| && i < |texts|
    ensures FieldsNeed(names[..i + 1], texts[..i + 1], depth, fmt)
         == FieldsNeed(names[..i], texts[..i], depth, fmt)
            + |texts[i]| + |names[i]| + 2 + (if fmt then 2 + depth else 0)
    ensures FieldsNeed(names[..i + 1], texts[..i + 1], depth, fmt) <= FieldsNeed(names, texts, depth, fmt)
    decreases |texts| - i
  {
    assert texts[..i + 1][..i] == texts[..i] && names[..i + 1][..i] == names[..i];
    if i + 1 < |texts| {
      FieldsNeedGrows(names, texts, i + 1, depth, fmt);
    } else {
      assert texts[..i + 1] == texts && names[..i + 1] == names;
    }
  }

  function TabsIf(n: nat, fmt: bool): string {
    if fmt then Tabs(n) else ""
  }

  /** One field of an object with what stands behind it. */
  ghost function FieldText(name: string, text: string, depth: nat, last: bool, fmt: bool): string {
    FieldLeadText(name, depth, fmt) + (text + FieldTail(last, fmt))
  }

  ghost function FieldLeadText(name: string, depth: nat, fmt: bool): string {
    TabsIf(depth, fmt) + name + (if fmt then ":\t" else ":")
  }

  ghost function JoinFields(names: seq<string>, texts: seq<string>, depth: nat, fmt: bool): string
    requires |names| == |texts|
  {
    if |texts| == 0 then ""
    else FieldText(names[0], texts[0], depth, |texts| == 1, fmt) + JoinFields(names[1..], texts[1..], depth, fmt)
  }

  lemma JoinFieldsStep(
    names: seq<string>, texts: seq<string>, i: nat, depth: nat, fmt: bool, written: string)
    requires |names| == |texts| && i < |texts|
    ensures written + JoinFields(names[i..], texts[i..], depth, fmt)
         == written + FieldText(names[i], texts[i], depth, i == |texts| - 1, fmt)
            + JoinFields(names[i + 1..], texts[i + 1..], depth, fmt)
  {
    assert texts[i..][1..] == texts[i + 1..] && names[i..][1..] == names[i + 1..];
  }

  /** `for (j=0;j<n;j++) *ptr++='\t';` when formatting. */
  method PutTabs(out: array<char>, at: nat, n: nat, fmt: bool) returns (ptr: nat)
    requires at + (if fmt then n else 0) < out.Length
    modifies out
    ensures ptr == at + |TabsIf(n, fmt)| && out[..ptr] == old(out[..at]) + TabsIf(n, fmt)
  {
    ptr := at;
    if fmt {
      for j := 0 to n
        invariant ptr == at + j && out[..ptr] == old(out[..at]) + Tabs(j)
      {
        out[ptr] := '\t';
        ptr := ptr + 1;
      }
    }
  }

  /** Lines 457 to 459. */
  method PutName(out: array<char>, at: nat, name: array<char>, depth: nat, fmt: bool, ghost text: string)
    returns (ptr: nat)
    requires Holds(name, text) && '\0' !in text && name != out
    requires at + (if fmt then depth + 1 else 0) + |text| + 1 < out.Length
    modifies out
    ensures ptr == at + |FieldLeadText(text, depth, fmt)|
    ensures out[..ptr] == old(out[..at]) + FieldLeadText(text, depth, fmt)
  {
    ptr := PutTabs(out, at, depth, fmt);
    StrCpy(out, ptr, name, text);
    var n := StrLen(name, text);
    ptr := ptr + n;
    out[ptr] := ':';
    ptr := ptr + 1;
    if fmt {
      out[ptr] := '\t';
      ptr := ptr + 1;
    }
  }

  /** Lines 460 to 462. */
  method PutFieldValue(out: array<char>, at: nat, entry: array<char>, last: bool, fmt: bool, ghost text: string)
    returns (ptr: nat)
    requires Holds(entry, text) && '\0' !in text && entry != out
    requires at + |text| + 1 + (if fmt then 1 else 0) < out.Length
    modifies out
    ensures ptr == at + |text + FieldTail(last, fmt)|
    ensures out[..ptr] == old(out[..at]) + (text + FieldTail(last, fmt))
  {
    StrCpy(out, at, entry, text);
    var n := StrLen(entry, text);
    ptr := at + n;
    if !last {
      out[ptr] := ',';
      ptr := ptr + 1;
    }
    if fmt {
      out[ptr] := '\n';
      ptr := ptr + 1;
    }
    out[ptr] := '\0';
  }

  method PutField(out: array<char>, at: nat, name: array<char>, entry: array<char>, depth: nat, last: bool, fmt: bool,
                  ghost nameText: string, ghost text: string)
    returns (ptr: nat)
    requires Holds(name, nameText) && '\0' !in nameText && name != out
    requires Holds(entry, text) && '\0' !in text && entry != out
    requires at + (if fmt then depth + 2 else 0) + |nameText| + |text| + 2 < out.Length
    modifies out
    ensures ptr == at + |FieldText(nameText, text, depth, last, fmt)|
    ensures out[..ptr] == old(out[..at]) + FieldText(nameText, text, depth, last, fmt)
  {
    ptr := PutName(out, at, name, depth, fmt, nameText);
    ptr := PutFieldValue(out, ptr, entry, last, fmt, text);
    assert old(out[..at]) + FieldLeadText(nameText, depth, fmt) + (text + FieldTail(last, fmt))
        == old(out[..at]) + (FieldLeadText(nameText, depth, fmt) + (text + FieldTail(last, fmt)));
  }

  method PutOpen(out: array<char>, fmt: bool) returns (ptr: nat)
    requires out.Length > 2
    modifies out
    ensures ptr == |ObjectOpen(fmt)| && out[..ptr] == ObjectOpen(fmt)
  {
    out[0] := '{';
    ptr := 1;
    if fmt {
      out[1] := '\n';
      ptr := 2;
    }
    out[ptr] := '\0';
  }

  method PutClose(out: array<char>, at: nat, depth: nat, fmt: bool)
    requires at + (if fmt then depth else 0) + 1 < out.Length
    modifies out
    ensures Holds(out, old(out[..at]) + ObjectClose(depth, fmt))
  {
    var ptr := PutTabs(out, at, depth, fmt);
    PutEnd(out, ptr, '}');
    assert old(out[..at]) + TabsIf(depth, fmt) + "}" == old(out[..at]) + ObjectClose(depth, fmt);
  }

  /** One round of the loop: the text of `whole` is the text so far and the fields from i on. */
  method PutFieldAt(out: array<char>, ptr: nat, names: seq<array<char>>, entries: seq<array<char>>, i: nat,
                    depth: nat, fmt: bool, ghost at: nat, ghost nameTexts: seq<string>, ghost texts: seq<string>,
                    ghost whole: string)
    returns (next: nat)
    requires AllHold(names, nameTexts) && AllHold(entries, texts) && |names| == |entries| && i < |entries|
    requires out !in names && out !in entries
    requires at + FieldsNeed(nameTexts, texts, depth, fmt) + 1 < out.Length
    requires at <= ptr <= at + FieldsNeed(nameTexts[..i], texts[..i], depth, fmt) && ptr <= out.Length
    requires out[..ptr] + JoinFields(nameTexts[i..], texts[i..], depth, fmt) == whole
    modifies out
    ensures at <= next <= at + FieldsNeed(nameTexts[..i + 1], texts[..i + 1], depth, fmt) && next <= out.Length
    ensures out[..next] + JoinFields(nameTexts[i + 1..], texts[i + 1..], depth, fmt) == whole
  {
    FieldsNeedGrows(nameTexts, texts, i, depth, fmt);
    JoinFieldsStep(nameTexts, texts, i, depth, fmt, out[..ptr]);
    assert names[i] in names && entries[i] in entries;
    next := PutField(out, ptr, names[i], entries[i], depth, i == |entries| - 1, fmt, nameTexts[i], texts[i]);
  }

  /** The loop of lines 455 to 464. */
  method PutFields(out: array<char>, at: nat, names: seq<array<char>>, entries: seq<array<char>>, depth: nat, fmt: bool,
                   ghost nameTexts: seq<string>, ghost texts: seq<string>)
    returns (ptr: nat)
    requires AllHold(names, nameTexts) && AllHold(entries, texts) && |names| == |entries|
    requires out !in names && out !in entries
    requires at + FieldsNeed(nameTexts, texts, depth, fmt) + 1 < out.Length
    modifies out
    ensures at <= ptr <= at + FieldsNeed(nameTexts, texts, depth, fmt)
    ensures out[..ptr] == old(out[..at]) + JoinFields(nameTexts, texts, depth, fmt)
  {
    ptr := at;
    var i := 0;
    ghost var whole := out[..ptr] + JoinFields(nameTexts, texts, depth, fmt);
    assert texts[0..] == texts && texts[..0] == [] && nameTexts[0..] == nameTexts && nameTexts[..0] == [];
    while i < |entries|
      invariant 0 <= i <= |entries|
      invariant at <= ptr <= at + FieldsNeed(nameTexts[..i], texts[..i], depth, fmt) && ptr <= out.Length
      invariant out[..ptr] + JoinFields(nameTexts[i..], texts[i..], depth, fmt) == whole
    {
      ptr := PutFieldAt(out, ptr, names, entries, i, depth, fmt, at, nameTexts, texts, whole);
      i := i + 1;
    }
    assert texts[..i] == texts && nameTexts[..i] == nameTexts;
    assert JoinFields(nameTexts[i..], texts[i..], depth, fmt) == "" && out[..ptr] + "" == out[..ptr];
  }

  /** The second half of print_object, lines 442 to 469; `depth` already counts this
      object. */
  method ComposeObject(names: seq<array<char>>, entries: seq<array<char>>, len: nat, depth: nat, fmt: bool,
                       ghost nameTexts: seq<string>, ghost texts: seq<string>)
    returns (out: array<char>)
    requires depth >= 1 && AllHold(names, nameTexts) && AllHold(entries, texts) && |names| == |entries|
    requires len == 7 + (if fmt then depth else 0) + FieldsNeed(nameTexts, texts, depth, fmt)
    ensures fresh(out)
    ensures Holds(out, ObjectOpen(fmt) + JoinFields(nameTexts, texts, depth, fmt) + ObjectClose(depth - 1, fmt))
  {
    out := new char[len];
    var ptr := PutOpen(out, fmt);
    ptr := PutFields(out, ptr, names, entries, depth, fmt, nameTexts, texts);
    PutClose(out, ptr, depth - 1, fmt);
  }

  // ------------------------------------------------------------------- trees

  function ElemTexts(elems: seq<Json>, depth: nat, fmt: bool): seq<string> {
    seq(|elems|, i requires 0 <= i < |elems| => Print(elems[i], depth, fmt))
  }

  function ValueTexts(fields: seq<Field>, depth: nat, fmt: bool): seq<string> {
    seq(|fields|, i requires 0 <= i < |fields| => Print(fields[i].value, depth, fmt))
  }

  function NameTexts(fields: seq<Field>): seq<string> {
    seq(|fields|, i requires 0 <= i < |fields| => PrintString(fields[i].name))
  }

  lemma {:induction false} JoinedElems(elems: seq<Json>, depth: nat, fmt: bool)
    ensures JoinElems(ElemTexts(elems, depth, fmt), fmt) == PrintElems(elems, depth, fmt)
  {
    if |elems| > 1 {
      assert ElemTexts(elems, depth, fmt)[1..] == ElemTexts(elems[1..], depth, fmt);
      JoinedElems(elems[1..], depth, fmt);
    }
  }

  lemma {:induction false} JoinedFields(fields: seq<Field>, depth: nat, fmt: bool)
    ensures JoinFields(NameTexts(fields), ValueTexts(fields, depth, fmt), depth, fmt) == PrintFields(fields, depth, fmt)
  {
    if fields != [] {
      var names, texts := NameTexts(fields), ValueTexts(fields, depth, fmt);
      assert names[1..] == NameTexts(fields[1..]) && texts[1..] == ValueTexts(fields[1..], depth, fmt);
      JoinedFields(fields[1..], depth, fmt);
      OneField(fields[0], depth, |fields| == 1, fmt);
    }
  }

  lemma OneField(field: Field, depth: nat, last: bool, fmt: bool)
    ensures FieldText(PrintString(field.name), Print(field.value, depth, fmt), depth, last, fmt)
         == PrintField(field, depth, fmt) + FieldTail(last, fmt)
  {
    var lead := FieldLead(field.name, depth, fmt);
    assert lead == FieldLeadText(PrintString(field.name), depth, fmt);
    Assoc(lead, Print(field.value, depth, fmt), FieldTail(last, fmt));
  }

  // A printed text has no terminator inside.

  lemma {:induction false} EscapeNulFree(s: string)
    requires '\0' !in s
    ensures '\0' !in Escape(s)
  {
    if s != "" {
      EscapeNulFree(s[1..]);
    }
  }

  lemma NameNulFree(name: Option<CString>)
    ensures '\0' !in PrintString(name)
  {
    if name.Some? {
      EscapeNulFree(name.value);
    }
  }

  lemma {:induction false} DigitsNulFree(n: nat)
    ensures '\0' !in Digits(n)
  {
    if n >= 10 {
      DigitsNulFree(n / 10);
    }
  }

  lemma {:induction false} PrintNulFree(v: Json, depth: nat, fmt: bool)
    ensures '\0' !in Print(v, depth, fmt)
    decreases v, 0
  {
    match v
    case Number(n) => DigitsNulFree(if n < 0 then -n else n);
    case String(text) => NameNulFree(text);
    case Array(elems) =>
      ElemsNulFree(elems, depth + 1, fmt);
      assert Print(v, depth, fmt) == "[" + PrintElems(elems, depth + 1, fmt) + "]";
    case Object(fields) =>
      FieldsNulFree(fields, depth + 1, fmt);
      assert Print(v, depth, fmt) == ObjectOpen(fmt) + PrintFields(fields, depth + 1, fmt) + ObjectClose(depth, fmt);
    case _ =>
  }

  lemma {:induction false} ElemsNulFree(elems: seq<Json>, depth: nat, fmt: bool)
    ensures '\0' !in PrintElems(elems, depth, fmt)
    decreases elems, 1
  {
    if elems != [] {
      PrintNulFree(elems[0], depth, fmt);
      ElemsNulFree(elems[1..], depth, fmt);
    }
  }

  lemma {:induction false} FieldNulFree(field: Field, depth: nat, fmt: bool)
    ensures '\0' !in PrintField(field, depth, fmt)
    decreases field, 1
  {
    NameNulFree(field.name);
    PrintNulFree(field.value, depth, fmt);
  }

  lemma {:induction false} FieldsNulFree(fields: seq<Field>, depth: nat, fmt: bool)
    ensures '\0' !in PrintFields(fields, depth, fmt)
    decreases fields, 1
  {
    if fields != [] {
      FieldNulFree(fields[0], depth, fmt);
      FieldsNulFree(fields[1..], depth, fmt);
    }
  }

  lemma {:induction false} DigitsFit(n: nat, k: nat)
    requires k > 0 && n < Power10(k)
    ensures |Digits(n)| <= k
  {
    if n >= 10 {
      DigitsFit(n / 10, k - 1);
    }
  }

  function Power10(k: nat): nat {
    if k == 0 then 1 else 10 * Power10(k - 1)
  }

  /** The decimal form of an int. */
  lemma NumberFits(n: cint)
    ensures |PrintNumber(n)| <= 11
  {
    assert Power10(4) == 10000 && Power10(7) == 1000 * Power10(4) && Power10(10) == 1000 * Power10(7);
    var m: int := n;
    DigitsFit(if m < 0 then -m else m, 10);
  }

  /** sprintf: the text and its terminator. */
  method SPrintF(out: array<char>, s: string)
    requires |s| < out.Length
    modifies out
    ensures Holds(out, s)
  {
    for i := 0 to |s|
      invariant out[..i] == s[..i]
    {
      out[i] := s[i];
    }
    out[|s|] := '\0';
  }

  /** print_number of an int: a block of 21 bytes is enough. */
  method PrintNumberAt(item: Item) returns (out: array<char>)
    ensures fresh(out) && Holds(out, PrintNumber(item.valueint))
  {
    NumberFits(item.valueint);
    out := new char[21];
    SPrintF(out, PrintNumber(item.valueint));
  }

  /** A libc string constant, in a block of its own. */
  method StrDup(s: string) returns (out: array<char>)
    requires '\0' !in s
    ensures fresh(out) && Holds(out, s)
  {
    out := new char[|s| + 1](i => if 0 <= i < |s| then s[i] else '\0');
    assert out[..|s|] == s;
  }

  /** Nothing changed in the tree. */
  twostate lemma StillTree(t: Shape)
    requires old(Tree(t)) && unchanged(t.item) && unchanged(t.below)
    ensures Tree(t) && Value(t) == old(Value(t)) && Entries(t) == old(Entries(t))
  {
  }

  /** print_value, for a tree that holds v. */
  method PrintValueAt(item: Item, depth: nat, fmt: bool, ghost t: Shape, ghost v: Json) returns (out: array<char>)
    requires t.item == item && Tree(t) && Value(t) == v
    ensures fresh(out) && Holds(out, Print(v, depth, fmt))
    decreases t, 5
  {
    PrintNulFree(v, depth, fmt);
    match item.kind
    case KNull => out := StrDup("null");
    case KFalse => out := StrDup("false");
    case KTrue => out := StrDup("true");
    case KNumber => out := PrintNumberAt(item);
    case KString => out := PrintStringPtr(item.valuestring);
    case KArray => out := PrintArrayAt(item, depth, fmt, t, v.elems);
    case KObject => out := PrintObjectAt(item, depth, fmt, t, v.fields);
  }

  /** print_value of a child, and the strlen of the result. */
  method PrintKid(child: Item, depth: nat, fmt: bool, ghost t: Shape, ghost fields: seq<Field>, ghost i: nat)
    returns (out: array<char>, len: nat)
    requires Tree(t) && Entries(t) == fields && i < |t.kids| && child == t.kids[i].item
    ensures fresh(out) && Held(out, Print(fields[i].value, depth, fmt)) && len == |Print(fields[i].value, depth, fmt)|
    ensures Tree(t) && Entries(t) == fields && child.next == At(Roots(t.kids), i + 1)
    decreases t, 0
  {
    ghost var v := fields[i].value;
    assert t.kids[i] in t.kids;
    out := PrintValueAt(child, depth, fmt, t.kids[i], v);
    PrintNulFree(v, depth, fmt);
    len := StrLen(out, Print(v, depth, fmt));
    StillTree(t);
  }

  /** One round of the loop in lines 343 to 349. */
  method CollectElem(child: Item, depth: nat, fmt: bool, entries: seq<array<char>>,
                     ghost t: Shape, ghost fields: seq<Field>, ghost i: nat, ghost texts: seq<string>)
    returns (more: seq<array<char>>, len: nat)
    requires Tree(t) && Entries(t) == fields && i < |t.kids| && child == t.kids[i].item
    requires texts == ElemTexts(Elems(fields), depth, fmt) && AllHold(entries, texts[..i])
    ensures AllHold(more, texts[..i + 1]) && len == |texts[i]| + 2 + (if fmt then 1 else 0)
    ensures Tree(t) && Entries(t) == fields && child.next == At(Roots(t.kids), i + 1)
    decreases t, 1
  {
    var ret, n := PrintKid(child, depth, fmt, t, fields, i);
    HoldMore(entries, texts, i, ret);
    return entries + [ret], n + 2 + (if fmt then 1 else 0);
  }

  /** The first half of print_array, lines 343 to 349. */
  method CollectElems(item: Item, depth: nat, fmt: bool, ghost t: Shape, ghost fields: seq<Field>,
                      ghost texts: seq<string>)
    returns (entries: seq<array<char>>, len: nat)
    requires t.item == item && Tree(t) && Entries(t) == fields && texts == ElemTexts(Elems(fields), depth, fmt)
    ensures AllHold(entries, texts) && len == 5 + ElemsNeed(texts, fmt)
    decreases t, 2
  {
    entries, len := [], 5;
    var child := item.child;
    ghost var i := 0;
    while child != null
      invariant 0 <= i <= |t.kids| && child == At(Roots(t.kids), i)
      invariant Tree(t) && Entries(t) == fields
      invariant AllHold(entries, texts[..i])
      invariant len == 5 + ElemsNeed(texts[..i], fmt)
      decreases |t.kids| - i
    {
      var n;
      entries, n := CollectElem(child, depth, fmt, entries, t, fields, i, texts);
      len := len + n;
      ElemsNeedGrows(texts, i, fmt);
      child := child.next;
      i := i + 1;
    }
    assert texts[..i] == texts;
  }

  /** print_array. */
  method PrintArrayAt(item: Item, depth: nat, fmt: bool, ghost t: Shape, ghost elems: seq<Json>)
    returns (out: array<char>)
    requires t.item == item && Tree(t) && Elems(Entries(t)) == elems
    ensures fresh(out) && Holds(out, Print(Array(elems), depth, fmt))
    decreases t, 3
  {
    ghost var texts := ElemTexts(elems, depth + 1, fmt);
    var entries, len := CollectElems(item, depth + 1, fmt, t, Entries(t), texts);
    out := ComposeArray(entries, len, fmt, texts);
    ArrayPrint(elems, depth, fmt);
  }

  lemma ArrayPrint(elems: seq<Json>, depth: nat, fmt: bool)
    ensures Print(Array(elems), depth, fmt) == "[" + JoinElems(ElemTexts(elems, depth + 1, fmt), fmt) + "]"
  {
    JoinedElems(elems, depth + 1, fmt);
  }

  /** print_string_ptr of a child's name and print_value of the child, with the strlen of
      both. */
  method PrintNameAndKid(child: Item, depth: nat, fmt: bool, ghost t: Shape, ghost fields: seq<Field>, ghost i: nat)
    returns (name: array<char>, nameLen: nat, out: array<char>, len: nat)
    requires Tree(t) && Entries(t) == fields && i < |t.kids| && child == t.kids[i].item
    ensures fresh(name) && Held(name, PrintString(fields[i].name)) && nameLen == |PrintString(fields[i].name)|
    ensures fresh(out) && Held(out, Print(fields[i].value, depth, fmt)) && len == |Print(fields[i].value, depth, fmt)|
    ensures Tree(t) && Entries(t) == fields && child.next == At(Roots(t.kids), i + 1)
    decreases t, 1
  {
    name := PrintStringPtr(child.name);
    NameNulFree(child.name);
    nameLen := StrLen(name, PrintString(child.name));
    StillTree(t);
    out, len := PrintKid(child, depth, fmt, t, fields, i);
  }

  /** One round of the loop in lines 432 to 439. */
  method CollectField(child: Item, depth: nat, fmt: bool, names: seq<array<char>>, entries: seq<array<char>>,
                      ghost t: Shape, ghost fields: seq<Field>, ghost i: nat,
                      ghost nameTexts: seq<string>, ghost texts: seq<string>)
    returns (moreNames: seq<array<char>>, moreEntries: seq<array<char>>, len: nat)
    requires Tree(t) && Entries(t) == fields && i < |t.kids| && child == t.kids[i].item
    requires nameTexts == NameTexts(fields) && texts == ValueTexts(fields, depth, fmt)
    requires AllHold(names, nameTexts[..i]) && AllHold(entries, texts[..i])
    ensures AllHold(moreNames, nameTexts[..i + 1]) && AllHold(moreEntries, texts[..i + 1])
    ensures len == |texts[i]| + |nameTexts[i]| + 2 + (if fmt then 2 + depth else 0)
    ensures Tree(t) && Entries(t) == fields && child.next == At(Roots(t.kids), i + 1)
    decreases t, 2
  {
    var str, m, ret, n := PrintNameAndKid(child, depth, fmt, t, fields, i);
    HoldMore(names, nameTexts, i, str);
    HoldMore(entries, texts, i, ret);
    return names + [str], entries + [ret], n + m + 2 + (if fmt then 2 + depth else 0);
  }

  /** The first half of print_object, lines 432 to 439. */
  method CollectFields(item: Item, depth: nat, fmt: bool, ghost t: Shape, ghost fields: seq<Field>,
                       ghost nameTexts: seq<string>, ghost texts: seq<string>)
    returns (names: seq<array<char>>, entries: seq<array<char>>, len: nat)
    requires t.item == item && Tree(t) && Entries(t) == fields
    requires nameTexts == NameTexts(fields) && texts == ValueTexts(fields, depth, fmt)
    ensures AllHold(names, nameTexts) && AllHold(entries, texts)
    ensures len == 7 + (if fmt then depth else 0) + FieldsNeed(nameTexts, texts, depth, fmt)
    decreases t, 3
  {
    names, entries, len := [], [], 7 + (if fmt then depth else 0);
    var child := item.child;
    ghost var i := 0;
    while child != null
      invariant 0 <= i <= |t.kids| && child == At(Roots(t.kids), i)
      invariant Tree(t) && Entries(t) == fields
      invariant AllHold(names, nameTexts[..i]) && AllHold(entries, texts[..i])
      invariant len == 7 + (if fmt then depth else 0) + FieldsNeed(nameTexts[..i], texts[..i], depth, fmt)
      decreases |t.kids| - i
    {
      var n;
      names, entries, n := CollectField(child, depth, fmt, names, entries, t, fields, i, nameTexts, texts);
      len := len + n;
      FieldsNeedGrows(nameTexts, texts, i, depth, fmt);
      child := child.next;
      i := i + 1;
    }
    assert texts[..i] == texts && nameTexts[..i] == nameTexts;
  }

  /** print_object. */
  method PrintObjectAt(item: Item, depth: nat, fmt: bool, ghost t: Shape, ghost fields: seq<Field>)
    returns (out: array<char>)
    requires t.item == item && Tree(t) && Entries(t) == fields
    ensures fresh(out) && Holds(out, Print(Object(fields), depth, fmt))
    decreases t, 4
  {
    var inner := depth + 1;
    ghost var nameTexts, texts := NameTexts(fields), ValueTexts(fields, inner, fmt);
    var names, entries, len := CollectFields(item, inner, fmt, t, fields, nameTexts, texts);
    out := ComposeObject(names, entries, len, inner, fmt, nameTexts, texts);
    ObjectPrint(fields, depth, inner, fmt);
  }

  lemma ObjectPrint(fields: seq<Field>, depth: nat, inner: nat, fmt: bool)
    requires inner == depth + 1
    ensures ObjectOpen(fmt) + JoinFields(NameTexts(fields), ValueTexts(fields, inner, fmt), inner, fmt)
            + ObjectClose(inner - 1, fmt)
         == Print(Object(fields), depth, fmt)
  {
    JoinedFields(fields, inner, fmt);
  }

  /** cJSON_Print (fmt) and cJSON_PrintUnformatted (not fmt). */
  method PrintTree(item: Item, fmt: bool, ghost t: Shape) returns (out: array<char>)
    requires t.item == item && Tree(t)
    ensures fresh(out) && Holds(out, Print(Value(t), 0, fmt))
  {
    ghost var v := Value(t);
    out := PrintValueAt(item, 0, fmt, t, v);
    StillTree(t);
  }
}
