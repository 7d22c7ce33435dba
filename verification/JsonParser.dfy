/** The parse_* routines of cJSON as they build a tree on the heap
    (c++/base/cJSON.c:95-116, 143-200, 248-278, 299-325 and 378-412). */
module JsonParser {
  import opened Options
  import opened Sequences
  import opened JsonText
  import opened JsonParse
  import opened JsonUnicode
  import opened JsonTree

  /** skip. */
  method SkipSpace(text: string) returns (rest: string)
    ensures rest == Skip(text)
  {
    rest := text;
    while rest != "" && 0 < rest[0] as int <= 32
      invariant Skip(rest) == Skip(text)
      decreases |rest|
    {
      rest := rest[1..];
    }
  }

  /** parse_number, for a text at a minus sign or a digit. */
  method ParseNumberAt(item: Item, text: string) returns (end: Pointer)
    modifies item`kind, item`valueint
    ensures end == EndOf(ParseNumber(text))
    ensures end.To? ==> item.kind == KNumber && item.valueint == ParseNumber(text).value
  {
    var num := text;
    var n, sign := 0, 1;
    if Peek(num) == '-' {
      sign, num := -1, num[1..];
    }
    if Peek(num) == '0' {
      num := num[1..];
    }
    if '1' <= Peek(num) <= '9' {
      ghost var start := num;
      while IsDigit(Peek(num))
        invariant n >= 0 && ReadDigits(n, num) == ReadDigits(0, start)
        decreases |num|
      {
        n := n * 10 + (num[0] as int - '0' as int);
        num := num[1..];
      }
    }
    if HasFraction(num) || !(INT_MIN <= sign * n <= INT_MAX) {
      return Astray;
    }
    item.valueint := sign * n;
    item.kind := KNumber;
    return To(num);
  }

  /** The first pass of parse_string. */
  method CountString(text: string) returns (len: nat, complete: bool)
    ensures complete == Scan(text).Ok?
    ensures complete ==> len == Scan(text).value
  {
    var ptr := text;
    len := 0;
    while Peek(ptr) != '\"' && Peek(ptr) != '\0'
      invariant Scan(text).Ok? == Scan(ptr).Ok?
      invariant Scan(text).Ok? ==> Scan(text).value == len + Scan(ptr).value
      decreases |ptr|
    {
      len := len + 1;
      var c := ptr[0];
      ptr := ptr[1..];
      if c == '\\' {
        if Peek(ptr) == '\0' {
          return len, false;
        }
        ptr := ptr[1..];
      }
    }
    return len, true;
  }

  /** What n of the cases of the switch store, six bits each, and what is left of the code. */
  function Trailing(uc: nat, n: nat): string {
    if n == 0 then "" else Trailing(uc / 0x40, n - 1) + [ContinuationByte(uc)]
  }

  function Shifted(uc: nat, n: nat): nat {
    if n == 0 then uc else Shifted(uc / 0x40, n - 1)
  }

  lemma {:induction false} CasesEncode(code: int, len: int)
    requires 0 <= code < 0x11_0000 && len == Utf8Length(code)
    ensures Shifted(code, len - 1) + FIRST_BYTE_MARK[len] < 0x100
    ensures Utf8(code) == [(Shifted(code, len - 1) + FIRST_BYTE_MARK[len]) as char] + Trailing(code, len - 1)
  {
    ShiftOut(code);
    ShiftOut(code / 0x40);
    ThreeCases(code);
  }

  lemma OneCase(uc: nat, n: nat)
    requires n > 0
    ensures Shifted(uc, n) == Shifted(uc / 0x40, n - 1)
    ensures Trailing(uc, n) == Trailing(uc / 0x40, n - 1) + [ContinuationByte(uc)]
  {
  }

  lemma ThreeCases(uc: nat)
    ensures var a, b := uc / 0x40, uc / 0x40 / 0x40;
            && Shifted(uc, 1) == a && Shifted(uc, 2) == b && Shifted(uc, 3) == b / 0x40
            && Trailing(uc, 0) == "" && Trailing(uc, 1) == [ContinuationByte(uc)]
            && Trailing(uc, 2) == [ContinuationByte(a), ContinuationByte(uc)]
            && Trailing(uc, 3) == [ContinuationByte(b), ContinuationByte(a), ContinuationByte(uc)]
  {
    var a, b := uc / 0x40, uc / 0x40 / 0x40;
    OneCase(b, 1);
    OneCase(a, 1);
    OneCase(a, 2);
    OneCase(uc, 1);
    OneCase(uc, 2);
    OneCase(uc, 3);
  }

  /** The cases of the switch from len down to 2, each of which falls through to the next:
      the bytes are stored from the last one to the second. */
  method PutTrailing(out: array<char>, at: nat, code: nat, len: nat) returns (uc: nat)
    requires 0 < len && at + len <= out.Length
    modifies out
    ensures uc == Shifted(code, len - 1) && out[..at] == old(out[..at])
    ensures out[at + 1..] == Trailing(code, len - 1) + old(out[at + len..])
  {
    var ptr2 := at + len;
    uc := code;
    ghost var n := len - 1;
    while ptr2 > at + 1
      invariant 0 <= n < len && ptr2 == at + 1 + n && Shifted(uc, n) == Shifted(code, len - 1)
      invariant out[..at] == old(out[..at])
      invariant Trailing(uc, n) + out[ptr2..] == Trailing(code, len - 1) + old(out[at + len..])
    {
      ghost var stored := out[ptr2..];
      ptr2 := ptr2 - 1;
      out[ptr2] := ContinuationByte(uc);
      assert out[ptr2..] == [ContinuationByte(uc)] + stored;
      Assoc(Trailing(uc / 0x40, n - 1), [ContinuationByte(uc)], stored);
      uc := uc / 0x40;
      n := n - 1;
    }
  }

  /** The encoding step of line 180 to 188. */
  method PutUtf8(out: array<char>, at: nat, code: int) returns (ptr2: nat)
    requires 0 <= code < 0x11_0000 && at + Utf8Length(code) < out.Length
    modifies out
    ensures ptr2 == at + Utf8Length(code) && out[..ptr2] == old(out[..at]) + Utf8(code)
  {
    var len := 4;
    if code < 0x80 {
      len := 1;
    } else if code < 0x800 {
      len := 2;
    } else if code < 0x1_0000 {
      len := 3;
    }
    CasesEncode(code, len);
    var uc := PutTrailing(out, at, code, len);
    ghost var behind := out[at + 1..];
    out[at] := (uc + FIRST_BYTE_MARK[len]) as char;
    ptr2 := at + len;
    assert out[at + 1..] == behind;
    FrontOf(out[..], old(out[..at]), out[at], Trailing(code, len - 1), old(out[at + len..]));
  }

  lemma FrontOf(s: string, front: string, first: char, trailing: string, rest: string)
    requires |s| > |front| && s[..|front|] == front && s[|front|] == first && s[|front| + 1..] == trailing + rest
    ensures s[..|front| + 1 + |trailing|] == front + ([first] + trailing)
  {
    assert s == front + [first] + (trailing + rest);
  }

  /** The `\u` case of the second pass; `ptr` starts at the digits. The pointer that
      comes back is behind the escape. */
  method PutUnicode(out: array<char>, at: nat, ptr: string) returns (ptr2: nat, rest: Pointer)
    requires at < out.Length
    requires UnicodeEscape(ptr).Ok? ==> at + |UnicodeEscape(ptr).value| < out.Length
    modifies out
    ensures rest == EndOf(UnicodeEscape(ptr))
    ensures rest.To? ==>
              var bytes := UnicodeEscape(ptr).value;
              ptr2 == at + |bytes| && out[..ptr2] == old(out[..at]) + bytes
  {
    ptr2 := at;
    if !FourHex(ptr) {
      return at, Astray;
    }
    var uc := Hex4(ptr);
    var p := ptr[4..];
    if IsLowSurrogate(uc) || uc == 0 {
      return at, To(p);
    }
    if IsHighSurrogate(uc) {
      if Peek(p) != '\\' || Peek(p[1..]) != 'u' {
        return at, To(p);
      }
      if !FourHex(p[2..]) {
        return at, Astray;
      }
      var uc2 := Hex4(p[2..]);
      p := p[6..];
      if !IsLowSurrogate(uc2) {
        return at, To(p);
      }
      uc := JoinSurrogates(uc, uc2);
    }
    ptr2 := PutUtf8(out, at, uc);
    rest := To(p);
  }

  lemma PrependTwice(a: string, b: string, r: Result<string>)
    ensures Prepend(a, Prepend(b, r)) == Prepend(a + b, r)
    ensures Prepend("", r) == r
  {
    if r.Ok? {
      assert a + (b + r.value) == a + b + r.value;
      assert "" + r.value == r.value;
    }
  }

  /** parse_string. */
  method ParseStringAt(item: Item, text: string) returns (end: Pointer)
    modifies item`kind, item`valuestring
    ensures end == EndOf(ParseString(text))
    ensures end.To? ==> item.kind == KString && item.valuestring == Some(ParseString(text).value)
  {
    if Peek(text) != '\"' {
      return Nil;
    }
    var len, complete := CountString(text[1..]);
    PassesAgree(text[1..]);
    if !complete {
      return Astray;
    }
    var out := new char[len + 1];
    var ptr, ptr2 := text[1..], 0;
    PrependTwice("", "", Unescape(ptr));
    while Peek(ptr) != '\"' && Peek(ptr) != '\0'
      invariant Scan(ptr).Ok? && 0 <= ptr2 <= ptr2 + Scan(ptr).value <= len
      invariant Unescape(text[1..]) == Prepend(out[..ptr2], Unescape(ptr))
      decreases |ptr|
    {
      ghost var written := out[..ptr2];
      UnescapeStep(written, ptr);
      if ptr[0] != '\\' {
        out[ptr2] := ptr[0];
        assert out[..ptr2 + 1] == written + [ptr[0]];
        ptr, ptr2 := ptr[1..], ptr2 + 1;
      } else {
        ptr := ptr[1..];
        if ptr[0] == 'u' {
          var at, rest := PutUnicode(out, ptr2, ptr[1..]);
          if rest.Astray? {
            return Astray;
          }
          ptr, ptr2 := rest.text, at;
        } else {
          out[ptr2] := LetterEscape(ptr[0]);
          assert out[..ptr2 + 1] == written + [LetterEscape(ptr[0])];
          ptr, ptr2 := ptr[1..], ptr2 + 1;
        }
      }
    }
    out[ptr2] := '\0';
    assert Unescape(text[1..]).Ok? && Unescape(text[1..]).value == out[..ptr2];
    item.valuestring := Some(out[..ptr2]);
    item.kind := KString;
    end := To(Closed(ptr));
  }

  /** What one round of the second pass does, and that it has room for it. */
  lemma UnescapeStep(written: string, p: string)
    requires Peek(p) != '\"' && Peek(p) != '\0' && Scan(p).Ok?
    ensures p[0] != '\\' ==>
              && Prepend(written, Unescape(p)) == Prepend(written + [p[0]], Unescape(p[1..]))
              && Scan(p) == Counted(Scan(p[1..])) && Scan(p[1..]).Ok?
    ensures p[0] == '\\' ==> |p| > 1 && p[1] != '\0' && p[1..][1..] == p[2..]
    ensures p[0] == '\\' && p[1] != 'u' ==>
              && Prepend(written, Unescape(p)) == Prepend(written + [LetterEscape(p[1])], Unescape(p[2..]))
              && Scan(p) == Counted(Scan(p[2..])) && Scan(p[2..]).Ok?
    ensures p[0] == '\\' && p[1] == 'u' && UnicodeEscape(p[2..]).Ok? ==>
              var e := UnicodeEscape(p[2..]);
              && Prepend(written, Unescape(p)) == Prepend(written + e.value, Unescape(e.rest))
              && Scan(e.rest).Ok?
              && |e.value| + Scan(e.rest).value <= Scan(p).value
    ensures p[0] == '\\' && p[1] == 'u' && !UnicodeEscape(p[2..]).Ok? ==> Unescape(p) == Outside
  {
    if p[0] != '\\' {
      PrependTwice(written, [p[0]], Unescape(p[1..]));
    } else if p[1] != 'u' {
      PrependTwice(written, [LetterEscape(p[1])], Unescape(p[2..]));
    } else if UnicodeEscape(p[2..]).Ok? {
      UnicodeFits(p[2..]);
      PrependTwice(written, UnicodeEscape(p[2..]).value, Unescape(UnicodeEscape(p[2..]).rest));
    }
  }

  // ------------------------------------------------------------------- trees

  /** parse_value, into a zeroed item. On failure, too, what was built is a tree, so that
      cJSON_Delete can take it down. */
  method ParseValueAt(item: Item, value: string, heap: Heap) returns (end: Pointer, ghost t: Shape)
    requires item.child == null
    modifies item`kind, item`valueint, item`valuestring, item`child, heap`live
    ensures t.item == item && fresh(t.below) && Tree(t) && heap.live == old(heap.live) + t.below
    ensures end == EndOf(ParseValue(value))
    ensures end.To? ==> Value(t) == ParseValue(value).value
    decreases |value|, 3
  {
    t := Leaf(item);
    if StartsWith(value, "null") {
      item.kind := KNull;
      end := To(value[4..]);
    } else if StartsWith(value, "false") {
      item.kind := KFalse;
      end := To(value[5..]);
    } else if StartsWith(value, "true") {
      item.kind := KTrue;
      item.valueint := 1;
      end := To(value[4..]);
    } else if Peek(value) == '\"' {
      end := ParseStringAt(item, value);
    } else if Peek(value) == '-' || IsDigit(Peek(value)) {
      end := ParseNumberAt(item, value);
    } else if Peek(value) == '[' {
      end, t := ParseArrayAt(item, value, heap);
    } else if Peek(value) == '{' {
      end, t := ParseObjectAt(item, value, heap);
    } else {
      end := Nil;
    }
  }

  /** `skip(parse_value(child,skip(text)))` on a zeroed child. */
  method ParseElement(child: Item, text: string, heap: Heap) returns (end: Pointer, ghost k: Shape)
    requires child.child == null
    modifies child`kind, child`valueint, child`valuestring, child`child, heap`live
    ensures k.item == child && fresh(k.below) && Tree(k) && heap.live == old(heap.live) + k.below
    ensures end.To? ==> |end.text| < |text| && ParseElems(text) == PrependTo(Value(k), MoreElems(end.text))
    ensures !end.To? ==> end == EndOf(ParseElems(text))
    decreases |text|, 4
  {
    var value := SkipSpace(text);
    end, k := ParseValueAt(child, value, heap);
    if end.To? {
      var rest := SkipSpace(end.text);
      end := To(rest);
    }
  }

  /** Parsing into a node behind a list leaves the list as it was. */
  method ParseElementBeside(child: Item, text: string, heap: Heap, ghost t: Shape)
    returns (end: Pointer, ghost k: Shape)
    requires child.child == null && Proper(t) && child !in t.Nodes() && Hung(t, child)
    modifies child`kind, child`valueint, child`valuestring, child`child, heap`live
    ensures k.item == child && fresh(k.below) && Tree(k) && heap.live == old(heap.live) + k.below
    ensures end.To? ==> |end.text| < |text| && ParseElems(text) == PrependTo(Value(k), MoreElems(end.text))
    ensures !end.To? ==> end == EndOf(ParseElems(text))
    ensures Hung(t, child) && Entries(t) == old(Entries(t)) && k.Nodes() !! t.Nodes()
    decreases |text|, 5
  {
    end, k := ParseElement(child, text, heap);
  }

  /** The same on a child that already hangs in the list. */
  method ParseHungElement(child: Item, text: string, heap: Heap, ghost t: Shape, ghost fields: seq<Field>)
    returns (end: Pointer, ghost more: Shape, ghost f: Field, ghost made: set<Item>)
    requires Proper(t) && Full(t) && child !in t.Nodes() && Hung(t, child) && child.child == null
    requires Entries(t) == fields
    modifies child`kind, child`valueint, child`valuestring, child`child, heap`live
    ensures Strung(t.item, child, more, fields + [f]) && more.below == t.below + {child} + made
    ensures fresh(made) && heap.live == old(heap.live) + made
    ensures end.To? ==> |end.text| < |text| && ParseElems(text) == PrependTo(f.value, MoreElems(end.text))
    ensures !end.To? ==> end == EndOf(ParseElems(text))
    decreases |text|, 6
  {
    ghost var k;
    end, k := ParseElementBeside(child, text, heap, t);
    AssembledList(t, k, fields);
    more, f, made := Appended(t, k), Field(child.name, Value(k)), k.below;
  }

  /** What has been read so far, and what is still to be read, are the whole. */
  ghost predicate Reading(end: Pointer, whole: Result<seq<Json>>, elems: seq<Json>, bound: nat) {
    if end.To? then |end.text| < bound && whole == PrependAll(elems, MoreElems(end.text)) else end == EndOf(whole)
  }

  lemma {:induction false} ReadMore(text: string, end: Pointer, whole: Result<seq<Json>>, fields: seq<Field>, f: Field)
    requires whole == PrependAll(Elems(fields), ParseElems(text))
    requires end.To? ==> |end.text| < |text| && ParseElems(text) == PrependTo(f.value, MoreElems(end.text))
    requires !end.To? ==> end == EndOf(ParseElems(text))
    ensures Reading(end, whole, Elems(fields + [f]), |text|)
  {
    ElemsOfMore(fields, f);
    if end.To? {
      PrependedMore(Elems(fields), f.value, MoreElems(end.text));
    }
  }

  /** A new element behind the last kid. */
  method ParseNewElement(item: Item, last: Item?, text: string, heap: Heap, ghost t: Shape, ghost fields: seq<Field>,
                         ghost live: set<Item>)
    returns (child: Item, end: Pointer, ghost more: Shape, ghost f: Field)
    requires Strung(item, last, t, fields) && heap.live == live + t.below
    modifies item`child, t.below`next, heap`live
    ensures Strung(item, child, more, fields + [f]) && heap.live == live + more.below
    ensures forall x | x in more.below :: x in t.below || fresh(x)
    ensures end.To? ==> |end.text| < |text| && ParseElems(text) == PrependTo(f.value, MoreElems(end.text))
    ensures !end.To? ==> end == EndOf(ParseElems(text))
    decreases |text|, 7
  {
    ghost var made;
    child := HangNew(item, last, heap, t, fields);
    end, more, f, made := ParseHungElement(child, text, heap, t, fields);
    UnionAssoc(live, t.below, {child});
    UnionAssoc(live, t.below + {child}, made);
  }

  /** A new element behind the last kid: what parse_array does once for the first element
      and once in each round of its loop. `whole` is what the elements so far and the text
      make. */
  method AddElement(item: Item, last: Item?, text: string, heap: Heap, ghost t: Shape, ghost fields: seq<Field>,
                    ghost live: set<Item>, ghost whole: Result<seq<Json>>)
    returns (child: Item, end: Pointer, ghost more: Shape, ghost all: seq<Field>)
    requires Strung(item, last, t, fields) && heap.live == live + t.below
    requires whole == PrependAll(Elems(fields), ParseElems(text))
    modifies item`child, t.below`next, heap`live
    ensures Strung(item, child, more, all) && heap.live == live + more.below
    ensures forall x | x in more.below :: x in t.below || fresh(x)
    ensures Reading(end, whole, Elems(all), |text|)
    decreases |text|, 8
  {
    ghost var f;
    child, end, more, f := ParseNewElement(item, last, text, heap, t, fields, live);
    ReadMore(text, end, whole, fields, f);
    all := fields + [f];
  }

  /** The loop of parse_array: each comma is followed by one more element. */
  method AddElements(item: Item, first: Item, start: Pointer, heap: Heap, ghost t0: Shape, ghost fields0: seq<Field>,
                   ghost live: set<Item>, ghost whole: Result<seq<Json>>, ghost bound: nat)
    returns (end: Pointer, ghost t: Shape, ghost fields: seq<Field>)
    requires Strung(item, first, t0, fields0) && heap.live == live + t0.below
    requires Reading(start, whole, Elems(fields0), bound)
    modifies item`child, t0.below`next, heap`live
    ensures t.item == item && Tree(t) && Entries(t) == fields && heap.live == live + t.below
    ensures forall x | x in t.below :: x in t0.below || fresh(x)
    ensures Reading(end, whole, Elems(fields), bound) && (end.To? ==> Peek(end.text) != ',')
    decreases bound, 8
  {
    var last := first;
    end, t, fields := start, t0, fields0;
    while end.To? && Peek(end.text) == ','
      invariant Strung(item, last, t, fields) && heap.live == live + t.below
      invariant forall x | x in t.below :: x in t0.below || fresh(x)
      invariant Reading(end, whole, Elems(fields), bound)
      decreases end.To?, if end.To? then |end.text| else 0
    {
      ElemsGoOn(end, whole, Elems(fields), bound);
      last, end, t, fields := AddElement(item, last, end.text[1..], heap, t, fields, live, whole);
    }
  }

  lemma ElemsGoOn(end: Pointer, whole: Result<seq<Json>>, elems: seq<Json>, bound: nat)
    requires Reading(end, whole, elems, bound) && end.To? && Peek(end.text) == ','
    ensures whole == PrependAll(elems, ParseElems(end.text[1..]))
  {
  }

  lemma ElemsEnd(end: Pointer, whole: Result<seq<Json>>, elems: seq<Json>, bound: nat)
    requires Reading(end, whole, elems, bound) && end.To? && Peek(end.text) != ','
    ensures if Peek(end.text) == ']' then whole == Ok(elems, end.text[1..]) else EndOf(whole) == Nil
  {
    ClosedBy(elems, MoreElems(end.text));
  }

  /** The first element and the loop. */
  method AddAllElems(item: Item, text: string, heap: Heap, ghost whole: Result<seq<Json>>)
    returns (end: Pointer, ghost t: Shape, ghost fields: seq<Field>)
    requires item.child == null && whole == PrependAll([], ParseElems(text))
    modifies item`child, heap`live
    ensures t.item == item && Tree(t) && Entries(t) == fields
    ensures fresh(t.below) && heap.live == old(heap.live) + t.below
    ensures Reading(end, whole, Elems(fields), |text|) && (end.To? ==> Peek(end.text) != ',')
    decreases |text|, 9
  {
    var last: Item;
    ghost var live := heap.live;
    last, end, t, fields := AddElement(item, null, text, heap, Leaf(item), [], live, whole);
    end, t, fields := AddElements(item, last, end, heap, t, fields, live, whole, |text|);
  }

  /** parse_array behind its check for an empty array. */
  method ParseElemsAt(item: Item, text: string, heap: Heap, ghost whole: Result<seq<Json>>)
    returns (end: Pointer, ghost t: Shape)
    requires item.child == null && whole == ParseElems(text)
    modifies item`child, heap`live
    ensures t.item == item && fresh(t.below) && Tree(t) && heap.live == old(heap.live) + t.below
    ensures end == EndOf(whole)
    ensures end.To? ==> Elems(Entries(t)) == whole.value
    decreases |text|, 10
  {
    ghost var fields;
    NonePrepended(whole);
    end, t, fields := AddAllElems(item, text, heap, whole);
    if end.To? {
      ElemsEnd(end, whole, Elems(fields), |text|);
      end := if Peek(end.text) == ']' then To(end.text[1..]) else Nil;
    }
  }

  /** parse_array. */
  method ParseArrayAt(item: Item, value: string, heap: Heap) returns (end: Pointer, ghost t: Shape)
    requires item.child == null && Peek(value) == '['
    modifies item`kind, item`child, heap`live
    ensures t.item == item && fresh(t.below) && Tree(t) && heap.live == old(heap.live) + t.below
    ensures end == EndOf(ParseArray(value))
    ensures end.To? ==> Value(t) == ParseArray(value).value
    decreases |value|, 1
  {
    item.kind := KArray;
    var text := SkipSpace(value[1..]);
    if Peek(text) == ']' {
      t := Leaf(item);
      end := To(text[1..]);
    } else {
      end, t := ParseElemsAt(item, text, heap, ParseElems(text));
    }
  }

  /** The name of a field: `skip(parse_string(child,skip(text)))`, the move of the string
      to the name, and the colon. */
  method ParseNameAt(child: Item, text: string) returns (end: Pointer)
    modifies child`kind, child`valuestring, child`name
    ensures end == EndOf(ParseName(text))
    ensures end.To? ==> child.name == Some(ParseName(text).value)
  {
    var start := SkipSpace(text);
    end := ParseStringAt(child, start);
    if end.To? {
      child.name := child.valuestring;
      child.valuestring := None;
      var value := SkipSpace(end.text);
      if Peek(value) != ':' {
        end := Nil;
      } else {
        value := SkipSpace(value[1..]);
        end := To(value);
      }
    }
  }

  /** The name, the colon and the value of a field, into a zeroed child. */
  method ParseFieldInto(child: Item, text: string, heap: Heap) returns (end: Pointer, ghost k: Shape)
    requires child.child == null
    modifies child`kind, child`valueint, child`valuestring, child`child, child`name, heap`live
    ensures k.item == child && fresh(k.below) && Tree(k) && heap.live == old(heap.live) + k.below
    ensures end.To? ==>
              && |end.text| < |text|
              && ParseFields(text) == PrependTo(Field(child.name, Value(k)), MoreFields(end.text))
    ensures !end.To? ==> end == EndOf(ParseFields(text))
    decreases |text|, 4
  {
    k := Leaf(child);
    end := ParseNameAt(child, text);
    if end.To? {
      end, k := ParseValueAt(child, end.text, heap);
      if end.To? {
        var rest := SkipSpace(end.text);
        end := To(rest);
      }
    }
  }

  /** Parsing into a node behind a list leaves the list as it was. */
  method ParseFieldBeside(child: Item, text: string, heap: Heap, ghost t: Shape)
    returns (end: Pointer, ghost k: Shape)
    requires child.child == null && Proper(t) && child !in t.Nodes() && Hung(t, child)
    modifies child`kind, child`valueint, child`valuestring, child`child, child`name, heap`live
    ensures k.item == child && fresh(k.below) && Tree(k) && heap.live == old(heap.live) + k.below
    ensures end.To? ==>
              && |end.text| < |text|
              && ParseFields(text) == PrependTo(Field(child.name, Value(k)), MoreFields(end.text))
    ensures !end.To? ==> end == EndOf(ParseFields(text))
    ensures Hung(t, child) && Entries(t) == old(Entries(t)) && k.Nodes() !! t.Nodes()
    decreases |text|, 5
  {
    end, k := ParseFieldInto(child, text, heap);
  }

  /** The same on a child that already hangs in the list. */
  method ParseHungField(child: Item, text: string, heap: Heap, ghost t: Shape, ghost fields: seq<Field>)
    returns (end: Pointer, ghost more: Shape, ghost f: Field, ghost made: set<Item>)
    requires Proper(t) && Full(t) && child !in t.Nodes() && Hung(t, child) && child.child == null
    requires Entries(t) == fields
    modifies child`kind, child`valueint, child`valuestring, child`child, child`name, heap`live
    ensures Strung(t.item, child, more, fields + [f]) && more.below == t.below + {child} + made
    ensures fresh(made) && heap.live == old(heap.live) + made
    ensures end.To? ==> |end.text| < |text| && ParseFields(text) == PrependTo(f, MoreFields(end.text))
    ensures !end.To? ==> end == EndOf(ParseFields(text))
    decreases |text|, 6
  {
    ghost var k;
    end, k := ParseFieldBeside(child, text, heap, t);
    AssembledList(t, k, fields);
    more, f, made := Appended(t, k), Field(child.name, Value(k)), k.below;
  }

  ghost predicate ReadingFields(end: Pointer, whole: Result<seq<Field>>, fields: seq<Field>, bound: nat) {
    if end.To? then |end.text| < bound && whole == PrependAll(fields, MoreFields(end.text)) else end == EndOf(whole)
  }

  lemma {:induction false} ReadMoreFields(
    text: string, end: Pointer, whole: Result<seq<Field>>, fields: seq<Field>, f: Field)
    requires whole == PrependAll(fields, ParseFields(text))
    requires end.To? ==> |end.text| < |text| && ParseFields(text) == PrependTo(f, MoreFields(end.text))
    requires !end.To? ==> end == EndOf(ParseFields(text))
    ensures ReadingFields(end, whole, fields + [f], |text|)
  {
    if end.To? {
      PrependedMore(fields, f, MoreFields(end.text));
    }
  }

  /** A new field behind the last kid. */
  method ParseNewField(item: Item, last: Item?, text: string, heap: Heap, ghost t: Shape, ghost fields: seq<Field>,
                         ghost live: set<Item>)
    returns (child: Item, end: Pointer, ghost more: Shape, ghost f: Field)
    requires Strung(item, last, t, fields) && heap.live == live + t.below
    modifies item`child, t.below`next, heap`live
    ensures Strung(item, child, more, fields + [f]) && heap.live == live + more.below
    ensures forall x | x in more.below :: x in t.below || fresh(x)
    ensures end.To? ==> |end.text| < |text| && ParseFields(text) == PrependTo(f, MoreFields(end.text))
    ensures !end.To? ==> end == EndOf(ParseFields(text))
    decreases |text|, 7
  {
    ghost var made;
    child := HangNew(item, last, heap, t, fields);
    end, more, f, made := ParseHungField(child, text, heap, t, fields);
    UnionAssoc(live, t.below, {child});
    UnionAssoc(live, t.below + {child}, made);
  }

  /** A new field behind the last kid: what parse_object does once for the first field and
      once in each round of its loop. `whole` is what the fields so far and the text make. */
  method AddField(item: Item, last: Item?, text: string, heap: Heap, ghost t: Shape, ghost fields: seq<Field>,
                    ghost live: set<Item>, ghost whole: Result<seq<Field>>)
    returns (child: Item, end: Pointer, ghost more: Shape, ghost all: seq<Field>)
    requires Strung(item, last, t, fields) && heap.live == live + t.below
    requires whole == PrependAll(fields, ParseFields(text))
    modifies item`child, t.below`next, heap`live
    ensures Strung(item, child, more, all) && heap.live == live + more.below
    ensures forall x | x in more.below :: x in t.below || fresh(x)
    ensures ReadingFields(end, whole, all, |text|)
    decreases |text|, 8
  {
    ghost var f;
    child, end, more, f := ParseNewField(item, last, text, heap, t, fields, live);
    ReadMoreFields(text, end, whole, fields, f);
    all := fields + [f];
  }

  /** The loop of parse_object: each comma is followed by one more field. */
  method AddFields(item: Item, first: Item, start: Pointer, heap: Heap, ghost t0: Shape, ghost fields0: seq<Field>,
                   ghost live: set<Item>, ghost whole: Result<seq<Field>>, ghost bound: nat)
    returns (end: Pointer, ghost t: Shape, ghost fields: seq<Field>)
    requires Strung(item, first, t0, fields0) && heap.live == live + t0.below
    requires ReadingFields(start, whole, fields0, bound)
    modifies item`child, t0.below`next, heap`live
    ensures t.item == item && Tree(t) && Entries(t) == fields && heap.live == live + t.below
    ensures forall x | x in t.below :: x in t0.below || fresh(x)
    ensures ReadingFields(end, whole, fields, bound) && (end.To? ==> Peek(end.text) != ',')
    decreases bound, 8
  {
    var last := first;
    end, t, fields := start, t0, fields0;
    while end.To? && Peek(end.text) == ','
      invariant Strung(item, last, t, fields) && heap.live == live + t.below
      invariant forall x | x in t.below :: x in t0.below || fresh(x)
      invariant ReadingFields(end, whole, fields, bound)
      decreases end.To?, if end.To? then |end.text| else 0
    {
      FieldsGoOn(end, whole, fields, bound);
      last, end, t, fields := AddField(item, last, end.text[1..], heap, t, fields, live, whole);
    }
  }

  lemma FieldsGoOn(end: Pointer, whole: Result<seq<Field>>, fields: seq<Field>, bound: nat)
    requires ReadingFields(end, whole, fields, bound) && end.To? && Peek(end.text) == ','
    ensures whole == PrependAll(fields, ParseFields(end.text[1..]))
  {
  }

  lemma FieldsEnd(end: Pointer, whole: Result<seq<Field>>, fields: seq<Field>, bound: nat)
    requires ReadingFields(end, whole, fields, bound) && end.To? && Peek(end.text) != ','
    ensures if Peek(end.text) == '}' then whole == Ok(fields, end.text[1..]) else EndOf(whole) == Nil
  {
    ClosedBy(fields, MoreFields(end.text));
  }

  /** The first field and the loop. */
  method AddAllFields(item: Item, text: string, heap: Heap, ghost whole: Result<seq<Field>>)
    returns (end: Pointer, ghost t: Shape, ghost fields: seq<Field>)
    requires item.child == null && whole == PrependAll([], ParseFields(text))
    modifies item`child, heap`live
    ensures t.item == item && Tree(t) && Entries(t) == fields
    ensures fresh(t.below) && heap.live == old(heap.live) + t.below
    ensures ReadingFields(end, whole, fields, |text|) && (end.To? ==> Peek(end.text) != ',')
    decreases |text|, 9
  {
    var last: Item;
    ghost var live := heap.live;
    last, end, t, fields := AddField(item, null, text, heap, Leaf(item), [], live, whole);
    end, t, fields := AddFields(item, last, end, heap, t, fields, live, whole, |text|);
  }

  /** parse_object behind its check for an empty object. */
  method ParseFieldsAt(item: Item, text: string, heap: Heap, ghost whole: Result<seq<Field>>)
    returns (end: Pointer, ghost t: Shape)
    requires item.child == null && whole == ParseFields(text)
    modifies item`child, heap`live
    ensures t.item == item && fresh(t.below) && Tree(t) && heap.live == old(heap.live) + t.below
    ensures end == EndOf(whole)
    ensures end.To? ==> Entries(t) == whole.value
    decreases |text|, 10
  {
    ghost var fields;
    NonePrepended(whole);
    end, t, fields := AddAllFields(item, text, heap, whole);
    if end.To? {
      FieldsEnd(end, whole, fields, |text|);
      end := if Peek(end.text) == '}' then To(end.text[1..]) else Nil;
    }
  }

  /** parse_object. */
  method ParseObjectAt(item: Item, value: string, heap: Heap) returns (end: Pointer, ghost t: Shape)
    requires item.child == null && Peek(value) == '{'
    modifies item`kind, item`child, heap`live
    ensures t.item == item && fresh(t.below) && Tree(t) && heap.live == old(heap.live) + t.below
    ensures end == EndOf(ParseObject(value))
    ensures end.To? ==> Value(t) == ParseObject(value).value
    decreases |value|, 1
  {
    item.kind := KObject;
    var text := SkipSpace(value[1..]);
    if Peek(text) == '}' {
      t := Leaf(item);
      end := To(text[1..]);
    } else {
      end, t := ParseFieldsAt(item, text, heap, ParseFields(text));
    }
  }

  /** cJSON_Parse. A null text and a text without a value give null, and whatever has been
      allocated for it is freed again; otherwise exactly the nodes of the tree are allocated. */
  method ParseText(value: Option<string>, heap: Heap) returns (c: Item?, astray: bool, ghost t: Shape)
    modifies heap`live
    ensures value.None? ==> c == null && !astray
    ensures value.Some? ==> astray == Parse(value.value).Outside?
    ensures value.Some? ==> (c != null <==> Parse(value.value).Ok?)
    ensures c != null ==> fresh(t.Nodes()) && t.item == c && Tree(t) && heap.live == old(heap.live) + t.Nodes()
    ensures c != null && value.Some? ==> Value(t) == Parse(value.value).value
    ensures c == null ==> heap.live == old(heap.live)
  {
    var item := new Item(heap);
    astray := false;
    t := Leaf(item);
    if value.Some? {
      var text := SkipSpace(value.value);
      var end;
      end, t := ParseValueAt(item, text, heap);
      if end.To? {
        return item, false, t;
      }
      astray := end.Astray?;
    }
    var _ := DeleteTree(item, heap, t);
    c := null;
  }

  function PrependAll<T>(vs: seq<T>, r: Result<seq<T>>): Result<seq<T>> {
    match r
    case Ok(ws, rest) => Ok(vs + ws, rest)
    case _ => r
  }

  lemma NonePrepended<T>(r: Result<seq<T>>)
    ensures PrependAll([], r) == r
  {
    assert r.Ok? ==> [] + r.value == r.value;
  }

  lemma ClosedBy<T>(vs: seq<T>, r: Result<seq<T>>)
    ensures r.Ok? && r.value == [] ==> PrependAll(vs, r) == Ok(vs, r.rest)
  {
    assert vs + [] == vs;
  }

  lemma PrependedMore<T>(vs: seq<T>, v: T, r: Result<seq<T>>)
    ensures PrependAll(vs, PrependTo(v, r)) == PrependAll(vs + [v], r)
  {
    if r.Ok? {
      assert vs + ([v] + r.value) == vs + [v] + r.value;
    }
  }
}
