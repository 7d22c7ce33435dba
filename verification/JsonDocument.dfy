/** A tree is printed, and its text is parsed again (c++/base/cJSON.c:252-264). */
module JsonDocument {
  import opened Options
  import opened JsonText
  import opened JsonParse
  import opened JsonRoundTrip
  import opened JsonTree
  import opened JsonParser
  import opened JsonPrinter

  /** What a parser reads in the block: everything before the first terminator. */
  method TextIn(block: array<char>, ghost s: CString) returns (text: string)
    requires Holds(block, s)
    ensures text == s
  {
    assert forall i | 0 <= i < |s| :: block[i] == s[i] && s[i] != '\0';
    var n := 0;
    while block[n] != '\0'
      invariant n <= |s|
      decreases |s| - n
    {
      n := n + 1;
    }
    text := block[..n];
  }

  method Printed(item: Item, fmt: bool, ghost t: Shape) returns (text: string)
    requires t.item == item && Tree(t)
    ensures text == Print(Value(t), 0, fmt)
  {
    ghost var v := Value(t);
    var out := PrintTree(item, fmt, t);
    PrintNulFree(v, 0, fmt);
    text := TextIn(out, Print(v, 0, fmt));
  }

  ghost predicate Means(text: string, v: Json) {
    Parse(text).Ok? && Parse(text).value == v
  }

  /** The text of v means v, or not. */
  lemma Returns(v: Json, fmt: bool)
    ensures Means(Print(v, 0, fmt), v) <==> Printable(v)
  {
    PrintThenParse(v, fmt);
    var text := Skip(Print(v, 0, fmt));
    if ParseValue(text).Ok? {
      ParsedValuePrintable(text);
    }
  }

  method ParseTree(text: string, heap: Heap, ghost v: Json) returns (c: Item?, ghost u: Shape)
    modifies heap`live
    ensures c != null ==> fresh(u.Nodes()) && u.item == c && Tree(u) && heap.live == old(heap.live) + u.Nodes()
    ensures c != null && Value(u) == v <==> Means(text, v)
    ensures c == null ==> heap.live == old(heap.live)
  {
    var astray;
    c, astray, u := ParseText(Some(text), heap);
  }

  /** cJSON_Parse of what cJSON_Print (fmt) or cJSON_PrintUnformatted (not fmt) returns: a new
      tree with the value of the old one, which stays as it is, if and only if that value has
      no null string and no number beyond an int. */
  method PrintAndParse(item: Item, fmt: bool, heap: Heap, ghost t: Shape) returns (c: Item?, ghost u: Shape)
    requires t.item == item && Tree(t)
    modifies heap`live
    ensures Tree(t) && Value(t) == old(Value(t))
    ensures c != null ==> fresh(u.Nodes()) && u.item == c && Tree(u) && heap.live == old(heap.live) + u.Nodes()
    ensures c != null && Value(u) == Value(t) <==> Printable(Value(t))
    ensures c == null ==> heap.live == old(heap.live)
  {
    ghost var v := Value(t);
    var text := Printed(item, fmt, t);
    StillTree(t);
    Returns(v, fmt);
    c, u := ParseTree(text, heap, v);
    StillTree(t);
  }
}
