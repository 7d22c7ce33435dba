/** The cJSON tree on the heap and the pointer surgery on its child lists
    (c++/base/cJSON.c:72-93 and 472-514, c++/base/cJSON.h:44-57). */
module JsonTree {
  import opened Options
  import opened Sequences
  import opened JsonText

  datatype Kind = KFalse | KTrue | KNull | KNumber | KString | KArray | KObject

  /** struct cJSON. Field `name` is the C field `string`; of a number the tree keeps the
      int only. */
  class Item {
    var next: Item?
    var prev: Item?
    var child: Item?
    var kind: Kind
    var valuestring: Option<CString>
    var valueint: cint
    var name: Option<CString>

    /** cJSON_New_Item: a zeroed node. */
    constructor (heap: Heap)
      modifies heap`live
      ensures next == null && prev == null && child == null
      ensures kind == KFalse && valuestring == None && valueint == 0 && name == None
      ensures heap.live == old(heap.live) + {this}
    {
      next, prev, child := null, null, null;
      kind, valuestring, valueint, name := KFalse, None, 0, None;
      new;
      heap.live := heap.live + {this};
    }
  }

  /** The nodes that have been allocated and not freed. */
  class Heap {
    ghost var live: set<Item>

    constructor ()
      ensures live == {}
    {
      live := {};
    }

    /** cJSON_free of a node. */
    method Free(item: Item)
      requires item in live
      modifies this`live
      ensures live == old(live) - {item}
    {
      live := live - {item};
    }
  }

  // ------------------------------------------------------------------ shapes

  /** Which items a tree consists of: its root, everything below the root, and the
      trees of the root's child list in order. */
  datatype Shape = Shape(item: Item, below: set<Item>, kids: seq<Shape>)
  {
    ghost function Nodes(): set<Item> {
      {item} + below
    }
  }

  /** No item occurs twice. */
  ghost predicate Proper(t: Shape) {
    && t.item !in t.below
    && (forall k | k in t.kids :: k.item in t.below && k.below <= t.below && Proper(k))
    && Apart(t.kids)
  }

  ghost predicate Apart(ts: seq<Shape>) {
    forall i, j {:trigger ts[i].Nodes(), ts[j].Nodes()} | 0 <= i < j < |ts| :: ts[i].Nodes() !! ts[j].Nodes()
  }

  ghost function ToSet(items: seq<Item>): set<Item> {
    set x | x in items
  }

  /** The item at position i of a sibling list, or null when there is none. */
  function At(items: seq<Item>, i: int): Item? {
    if 0 <= i < |items| then items[i] else null
  }

  /** The items are the child list of the parent: `next` and `prev` run through them in
      order and end in null. */
  ghost predicate Children(parent: Item, items: seq<Item>)
    reads parent`child, ToSet(items)`next, ToSet(items)`prev
  {
    && parent.child == At(items, 0)
    && (forall i {:trigger items[i].next} | 0 <= i < |items| :: items[i].next == At(items, i + 1))
    && (forall i {:trigger items[i].prev} | 0 <= i < |items| :: items[i].prev == At(items, i - 1))
  }

  /** The items are chained through `next` and `prev`; what is in front of the first one is
      left open. */
  ghost predicate Chain(items: seq<Item>)
    reads ToSet(items)`next, ToSet(items)`prev
  {
    && (forall i {:trigger items[i].next} | 0 <= i < |items| :: items[i].next == At(items, i + 1))
    && (forall i {:trigger items[i].prev} | 0 < i < |items| :: items[i].prev == items[i - 1])
  }

  /** A chain has no cycle and no item twice. */
  lemma {:induction false} ChainDistinct(items: seq<Item>, i: nat, j: nat)
    requires Chain(items) && i < j < |items|
    ensures items[i] != items[j]
    decreases |items| - j
  {
    if items[i] == items[j] {
      assert items[i].next == items[j].next;
      if j + 1 < |items| {
        ChainDistinct(items, i + 1, j + 1);
      }
    }
  }

  /** Nor has a child list. */
  lemma ChildrenDistinct(parent: Item, items: seq<Item>, i: nat, j: nat)
    requires Children(parent, items) && i < j < |items|
    ensures items[i] != items[j]
  {
    ChainDistinct(items, i, j);
  }

  lemma AllDistinct(parent: Item, items: seq<Item>)
    requires Children(parent, items)
    ensures forall i, j | 0 <= i < j < |items| :: items[i] != items[j]
  {
    forall i, j | 0 <= i < j < |items|
      ensures items[i] != items[j]
    {
      ChildrenDistinct(parent, items, i, j);
    }
  }

  ghost function Roots(ts: seq<Shape>): (items: seq<Item>)
    ensures |items| == |ts| && forall i | 0 <= i < |ts| :: items[i] == ts[i].item
  {
    seq(|ts|, i requires 0 <= i < |ts| => ts[i].item)
  }

  /** The pointers of the heap draw this shape. */
  ghost predicate Linked(t: Shape)
    requires Proper(t)
    reads t.item`child, t.below`child, t.below`next, t.below`prev
    decreases t
  {
    && Children(t.item, Roots(t.kids))
    && forall k | k in t.kids :: Linked(k)
  }

  ghost function AllNodes(ts: seq<Shape>): set<Item> {
    if ts == [] then {} else ts[0].Nodes() + AllNodes(ts[1..])
  }

  /** Nothing else is below a root than the trees of its child list. */
  ghost predicate Full(t: Shape) {
    t.below == AllNodes(t.kids) && forall k | k in t.kids :: Full(k)
  }

  /** A well-formed tree. */
  ghost predicate Tree(t: Shape)
    reads t.item`child, t.below`child, t.below`next, t.below`prev
  {
    Proper(t) && Full(t) && Linked(t)
  }

  ghost function Leaf(item: Item): Shape {
    Shape(item, {}, [])
  }

  // ------------------------------------------------------------------ values

  /** The value that a tree holds. */
  ghost function Value(t: Shape): Json
    requires Proper(t)
    reads t.item`kind, t.item`valueint, t.item`valuestring
    reads t.below`kind, t.below`valueint, t.below`valuestring, t.below`name
    decreases t, 1
  {
    match t.item.kind
    case KFalse => False
    case KTrue => True
    case KNull => Null
    case KNumber => Number(t.item.valueint)
    case KString => String(t.item.valuestring)
    case KArray => Array(Elems(Entries(t)))
    case KObject => Object(Entries(t))
  }

  /** Names and values along the child list. */
  ghost function Entries(t: Shape): (fields: seq<Field>)
    requires Proper(t)
    reads t.below`kind, t.below`valueint, t.below`valuestring, t.below`name
    ensures |fields| == |t.kids|
    ensures forall i | 0 <= i < |t.kids| :: fields[i] == Field(t.kids[i].item.name, Value(t.kids[i]))
    decreases t, 0, |t.kids| + 1
  {
    FirstEntries(t, |t.kids|)
  }

  ghost function FirstEntries(t: Shape, n: nat): (fields: seq<Field>)
    requires Proper(t) && n <= |t.kids|
    reads t.below`kind, t.below`valueint, t.below`valuestring, t.below`name
    ensures |fields| == n
    ensures forall i | 0 <= i < n :: fields[i] == Field(t.kids[i].item.name, Value(t.kids[i]))
    decreases t, 0, n
  {
    if n == 0 then []
    else
      var k := t.kids[n - 1];
      assert k in t.kids;
      FirstEntries(t, n - 1) + [Field(k.item.name, Value(k))]
  }

  function Elems(fields: seq<Field>): (elems: seq<Json>)
    ensures |elems| == |fields|
    ensures forall i | 0 <= i < |fields| :: elems[i] == fields[i].value
  {
    seq(|fields|, i requires 0 <= i < |fields| => fields[i].value)
  }

  lemma ElemsOfMore(fields: seq<Field>, f: Field)
    ensures Elems(fields + [f]) == Elems(fields) + [f.value]
  {
  }

  // ------------------------------------------------------------ child lists

  /** cJSON_GetArraySize. */
  method GetArraySize(parent: Item, ghost items: seq<Item>) returns (i: nat)
    requires Children(parent, items)
    ensures i == |items|
  {
    var c := parent.child;
    i := 0;
    while c != null
      invariant 0 <= i <= |items| && c == At(items, i)
      decreases |items| - i
    {
      i, c := i + 1, c.next;
    }
  }

  /** cJSON_GetArrayItem: a negative position means the first item. */
  method GetArrayItem(parent: Item, item: int, ghost items: seq<Item>) returns (c: Item?)
    requires Children(parent, items)
    ensures c == At(items, if item < 0 then 0 else item)
  {
    c := parent.child;
    var left := item;
    ghost var i := 0;
    while c != null && left > 0
      invariant 0 <= i <= |items| && c == At(items, i)
      invariant if item < 0 then i == 0 && left == item else left == item - i >= 0
      decreases left
    {
      left, c := left - 1, c.next;
      i := i + 1;
    }
  }

  method SuffixObject(prev: Item, item: Item)
    modifies prev`next, item`prev
    ensures prev.next == item && item.prev == prev
  {
    prev.next := item;
    item.prev := prev;
  }

  /** cJSON_AddItemToArray: nothing happens for a null item. An item comes with the chain
      behind it; in an empty list it keeps its own `prev`, so that the list is a proper one
      only if that was null. */
  method AddItemToArray(parent: Item, item: Item?, ghost items: seq<Item>, ghost chain: seq<Item>)
    requires Children(parent, items)
    requires item != null ==> At(chain, 0) == item && Chain(chain) && ToSet(items) !! ToSet(chain)
    modifies parent`child, ToSet(items)`next, (if item == null then {} else {item})`prev
    ensures item == null ==> Children(parent, items)
    ensures item != null && items != [] ==> Children(parent, items + chain)
    ensures item != null && items == [] ==> (Children(parent, chain) <==> old(item.prev) == null)
  {
    if item != null {
      NotBehind(chain);
    }
    var c := parent.child;
    if item == null {
      return;
    }
    if c == null {
      parent.child := item;
      assert chain[0].prev == item.prev;
    } else {
      ghost var i := 0;
      while c != null && c.next != null
        invariant 0 <= i < |items| && c == items[i]
        decreases |items| - i
      {
        c := c.next;
        i := i + 1;
      }
      AllDistinct(parent, items);
      NoneShared(items, chain);
      SuffixObject(c, item);
      JoinedList(parent, items, chain);
    }
  }

  lemma NoneShared(items: seq<Item>, chain: seq<Item>)
    requires ToSet(items) !! ToSet(chain)
    ensures forall i, j | 0 <= i < |items| && 0 <= j < |chain| :: items[i] != chain[j]
  {
    forall i, j | 0 <= i < |items| && 0 <= j < |chain|
      ensures items[i] != chain[j]
    {
      assert items[i] in ToSet(items) && chain[j] in ToSet(chain);
    }
  }

  /** A chain whose first item points back to the last one of a list continues the list. */
  lemma JoinedList(parent: Item, items: seq<Item>, chain: seq<Item>)
    requires items != [] && chain != [] && Chain(chain) && parent.child == items[0]
    requires forall i {:trigger items[i].next} | 0 <= i < |items| :: items[i].next == At(items + chain, i + 1)
    requires forall i {:trigger items[i].prev} | 0 <= i < |items| :: items[i].prev == At(items, i - 1)
    requires chain[0].prev == items[|items| - 1]
    ensures Children(parent, items + chain)
  {
    var all, n := items + chain, |items|;
    forall i | 0 <= i < |all|
      ensures all[i].next == At(all, i + 1) && all[i].prev == At(all, i - 1)
    {
      if i < n {
        assert all[i] == items[i];
      } else {
        assert all[i] == chain[i - n];
        assert chain[i - n].next == At(chain, i - n + 1);
        assert i == n || chain[i - n].prev == chain[i - n - 1];
      }
    }
  }

  /** The first item of a chain is not met again in it. */
  lemma NotBehind(chain: seq<Item>)
    requires Chain(chain) && chain != []
    ensures forall j | 0 < j < |chain| :: chain[j] != chain[0]
  {
    forall j | 0 < j < |chain|
      ensures chain[j] != chain[0]
    {
      ChainDistinct(chain, 0, j);
    }
  }

  /** A list is made of its new neighbours when everything up to position i stays and
      everything from i on is shifted by one. */
  lemma ShorterList(parent: Item, items: seq<Item>, i: nat)
    requires i < |items|
    requires parent.child == At(Without(items, i), 0)
    requires forall j {:trigger items[j].next} | 0 <= j < |items| && j != i ::
               items[j].next == At(items, if j + 1 == i then i + 1 else j + 1)
    requires forall j {:trigger items[j].prev} | 0 <= j < |items| && j != i ::
               items[j].prev == At(items, if j == i + 1 then i - 1 else j - 1)
    ensures Children(parent, Without(items, i))
  {
  }

  /** cJSON_DetachItemFromArray: the item comes out with both links cleared. */
  method DetachItemFromArray(parent: Item, which: int, ghost items: seq<Item>) returns (c: Item?)
    requires Children(parent, items)
    modifies parent`child, ToSet(items)`next, ToSet(items)`prev
    ensures var i := if which < 0 then 0 else which;
            && c == At(items, i)
            && (c == null ==> Children(parent, items))
            && (c != null ==> Children(parent, Without(items, i)) && c.next == null && c.prev == null)
  {
    c := GetArrayItem(parent, which, items);
    if c == null {
      return;
    }
    ghost var i := if which < 0 then 0 else which;
    AllDistinct(parent, items);
    if c.prev != null {
      c.prev.next := c.next;
    }
    if c.next != null {
      c.next.prev := c.prev;
    }
    if c == parent.child {
      parent.child := c.next;
    }
    c.prev, c.next := null, null;
    ShorterList(parent, items, i);
  }

  lemma ReplacedList(parent: Item, items: seq<Item>, i: nat, item: Item)
    requires i < |items|
    requires parent.child == At(items[i := item], 0)
    requires forall j {:trigger items[j].next} | 0 <= j < |items| && j != i ::
               items[j].next == (if j + 1 == i then item else At(items, j + 1))
    requires forall j {:trigger items[j].prev} | 0 <= j < |items| && j != i ::
               items[j].prev == (if j == i + 1 then item else At(items, j - 1))
    requires item.next == At(items, i + 1) && item.prev == At(items, i - 1)
    ensures Children(parent, items[i := item])
  {
  }

  /** cJSON_ReplaceItemInArray up to its closing cJSON_Delete: the new item takes over
      the place and the links of the old one, which is handed back unlinked. */
  method SwapItem(parent: Item, which: int, newitem: Item, ghost items: seq<Item>) returns (c: Item?)
    requires Children(parent, items) && newitem !in items
    modifies parent`child, ToSet(items)`next, ToSet(items)`prev, newitem`next, newitem`prev
    ensures var i := if which < 0 then 0 else which;
            && c == At(items, i)
            && (c == null ==> Children(parent, items))
            && (c != null ==> Children(parent, items[i := newitem]) && c.next == null && c.prev == null)
  {
    c := GetArrayItem(parent, which, items);
    if c == null {
      return;
    }
    AllDistinct(parent, items);
    newitem.next := c.next;
    newitem.prev := c.prev;
    if newitem.next != null {
      newitem.next.prev := newitem;
    }
    if c == parent.child {
      parent.child := newitem;
    } else {
      newitem.prev.next := newitem;
    }
    c.next, c.prev := null, null;
    ReplacedList(parent, items, if which < 0 then 0 else which, newitem);
  }

  // ------------------------------------------------- trees after an operation

  /** Below t, only the kids' roots had their sibling pointers changed. */
  twostate predicate OnlyRelinked(t: Shape)
    reads t.below
  {
    && unchanged((t.below - Tops(t))`next)
    && unchanged((t.below - Tops(t))`prev)
    && unchanged(t.below`child)
  }

  ghost function Tops(t: Shape): set<Item> {
    ToSet(Roots(t.kids))
  }

  /** Relinking a child list leaves the trees in it as they are. */
  twostate lemma {:induction false} Relinked(t: Shape)
    requires Proper(t) && OnlyRelinked(t)
    requires Children(t.item, Roots(t.kids))
    requires forall k | k in t.kids :: old(Linked(k))
    ensures Linked(t)
  {
    TopsOutside(t);
    forall k | k in t.kids
      ensures Linked(k)
    {
      assert k.item in Tops(t);
      assert k.below <= t.below - Tops(t);
    }
  }

  /** The roots of the kids lie in no kid's interior. */
  lemma {:induction false} TopsOutside(t: Shape)
    requires Proper(t)
    ensures forall k, m | k in t.kids && m in t.kids :: m.item !in k.below
  {
    forall k, m | k in t.kids && m in t.kids
      ensures m.item !in k.below
    {
      var i :| 0 <= i < |t.kids| && t.kids[i] == k;
      var j :| 0 <= j < |t.kids| && t.kids[j] == m;
      assert m.item in m.Nodes();
      assert i < j ==> t.kids[i].Nodes() !! t.kids[j].Nodes();
      assert j < i ==> t.kids[j].Nodes() !! t.kids[i].Nodes();
    }
  }

  ghost function Appended(t: Shape, k: Shape): Shape {
    Shape(t.item, t.below + k.Nodes(), t.kids + [k])
  }

  /** cJSON_AddItemToArray on trees. */
  method AddTree(parent: Item, item: Item, ghost t: Shape, ghost added: Shape)
    requires t.item == parent && Tree(t)
    requires added.item == item && Tree(added) && added.Nodes() !! t.Nodes()
    requires item.next == null && item.prev == null
    modifies parent`child, Tops(t)`next, item`prev
    ensures Tree(Appended(t, added))
    ensures Entries(Appended(t, added)) == old(Entries(t)) + [old(Field(item.name, Value(added)))]
  {
    NotAmongRoots(t, item);
    AddItemToArray(parent, item, Roots(t.kids), [item]);
    AppendedTree(Joining(t, added));
  }

  /** cJSON_AddItemToObject: a copy of the name is hung on the item first. */
  method AddItemToObject(parent: Item, name: CString, item: Item?, ghost t: Shape, ghost added: Shape)
    requires t.item == parent && Tree(t)
    requires item != null ==>
               && added.item == item && Tree(added) && added.Nodes() !! t.Nodes()
               && item.next == null && item.prev == null
    modifies parent`child, Tops(t)`next
    modifies (if item == null then {} else {item})`prev, (if item == null then {} else {item})`name
    ensures item == null ==> Tree(t) && Entries(t) == old(Entries(t))
    ensures item != null ==> Tree(Appended(t, added))
    ensures item != null ==> Entries(Appended(t, added)) == old(Entries(t)) + [Field(Some(name), old(Value(added)))]
  {
    if item != null {
      item.name := Some(name);
      assert Value(added) == old(Value(added)) && Entries(t) == old(Entries(t));
      AddTree(parent, item, t, added);
    }
  }

  lemma AppendedProper(t: Shape, k: Shape)
    requires Proper(t) && Proper(k) && k.Nodes() !! t.Nodes()
    ensures Proper(Appended(t, k)) && Roots(Appended(t, k).kids) == Roots(t.kids) + [k.item]
  {
    var kids := t.kids + [k];
    forall i, j | 0 <= i < j < |kids|
      ensures kids[i].Nodes() !! kids[j].Nodes()
    {
      assert kids[i] in t.kids;
    }
  }

  lemma AppendedFull(t: Shape, k: Shape)
    requires Full(t) && Full(k)
    ensures Full(Appended(t, k))
  {
    NodesOfBoth(t.kids, [k]);
    assert AllNodes([k]) == k.Nodes();
  }

  lemma {:induction false} NodesOfBoth(a: seq<Shape>, b: seq<Shape>)
    ensures AllNodes(a + b) == AllNodes(a) + AllNodes(b)
  {
    if a == [] {
      assert a + b == b;
    } else {
      assert (a + b)[1..] == a[1..] + b;
      NodesOfBoth(a[1..], b);
    }
  }

  lemma NodesAround(ts: seq<Shape>, i: nat)
    requires i < |ts|
    ensures AllNodes(ts) == AllNodes(ts[..i]) + ts[i].Nodes() + AllNodes(ts[i + 1..])
  {
    NodesOfBoth(ts[..i], ts[i..]);
    assert ts == ts[..i] + ts[i..];
    assert ts[i..][1..] == ts[i + 1..];
  }

  lemma {:induction false} NodesApart(nodes: set<Item>, ts: seq<Shape>)
    requires forall k | k in ts :: nodes !! k.Nodes()
    ensures nodes !! AllNodes(ts)
  {
    if ts != [] {
      assert ts[0] in ts;
      NodesApart(nodes, ts[1..]);
    }
  }

  datatype Joining = Joining(t: Shape, k: Shape)

  /** What a tree becomes when another one hangs behind its last kid. */
  twostate lemma AppendedTree(j: Joining)
    requires old(Tree(j.t)) && old(Tree(j.k)) && j.k.Nodes() !! j.t.Nodes() && OnlyRelinked(j.t)
    requires unchanged(j.k.item`child, j.k.below`child, j.k.below`next, j.k.below`prev)
    requires unchanged(j.t.below`kind, j.t.below`valueint, j.t.below`valuestring, j.t.below`name)
    requires unchanged(j.k.below`kind, j.k.below`valueint, j.k.below`valuestring, j.k.below`name)
    requires unchanged(j.k.item`kind, j.k.item`valueint, j.k.item`valuestring, j.k.item`name)
    requires Children(j.t.item, Roots(j.t.kids) + [j.k.item])
    ensures Tree(Appended(j.t, j.k))
    ensures Entries(Appended(j.t, j.k)) == old(Entries(j.t)) + [old(Field(j.k.item.name, Value(j.k)))]
  {
    StillKids(j.t);
    StillLinked(j.k);
    Assembled(j.t, j.k);
    StillEntries(j.t);
    StillValue(j.k);
  }

  twostate lemma StillValue(t: Shape)
    requires Proper(t) && unchanged(t.below`kind, t.below`valueint, t.below`valuestring, t.below`name)
    requires unchanged(t.item`kind, t.item`valueint, t.item`valuestring)
    ensures Value(t) == old(Value(t))
  {
  }

  lemma AppendedEntries(t: Shape, k: Shape)
    requires Proper(t) && Proper(k) && Proper(Appended(t, k))
    ensures Entries(Appended(t, k)) == Entries(t) + [Field(k.item.name, Value(k))]
  {
  }

  // ---------------------------------------------------------------- deleting

  /** The order in which cJSON_Delete frees a list: children first, then the item. */
  ghost function FreeOrder(ts: seq<Shape>): (order: seq<Item>)
  {
    if ts == [] then [] else FreeOrder(ts[0].kids) + [ts[0].item] + FreeOrder(ts[1..])
  }

  ghost predicate Forest(ts: seq<Shape>) {
    Apart(ts) && forall k | k in ts :: Proper(k) && Full(k)
  }

  lemma ForestParts(ts: seq<Shape>)
    requires Forest(ts) && ts != []
    ensures Proper(ts[0]) && Forest(ts[0].kids) && Forest(ts[1..])
    ensures ts[0].Nodes() == {ts[0].item} + AllNodes(ts[0].kids) && ts[0].item !in AllNodes(ts[0].kids)
    ensures ts[0].Nodes() !! AllNodes(ts[1..])
    ensures AllNodes(ts) == ts[0].Nodes() + AllNodes(ts[1..])
  {
    assert ts[0] in ts;
    forall k | k in ts[1..]
      ensures ts[0].Nodes() !! k.Nodes()
    {
      var j :| 0 <= j < |ts[1..]| && k == ts[1..][j];
      assert ts[0].Nodes() !! ts[j + 1].Nodes();
    }
    NodesApart(ts[0].Nodes(), ts[1..]);
  }

  /** Exactly the nodes are freed. */
  lemma {:induction false} FreedExactly(ts: seq<Shape>)
    requires Forest(ts)
    ensures ToSet(FreeOrder(ts)) == AllNodes(ts)
  {
    if ts != [] {
      ForestParts(ts);
      FreedExactly(ts[0].kids);
      FreedExactly(ts[1..]);
      JoinedSet(FreeOrder(ts[0].kids), ts[0].item, FreeOrder(ts[1..]));
    }
  }

  lemma JoinedSet(a: seq<Item>, x: Item, b: seq<Item>)
    ensures ToSet(a + [x] + b) == ToSet(a) + {x} + ToSet(b)
  {
  }

  ghost predicate NoRepeats(items: seq<Item>) {
    forall i, j | 0 <= i < j < |items| :: items[i] != items[j]
  }

  lemma JoinNoRepeats(a: seq<Item>, x: Item, b: seq<Item>)
    requires NoRepeats(a) && NoRepeats(b) && x !in a && x !in b && ToSet(a) !! ToSet(b)
    ensures NoRepeats(a + [x] + b)
  {
    var all := a + [x] + b;
    forall i, j | 0 <= i < j < |all|
      ensures all[i] != all[j]
    {
      assert all[i] == if i < |a| then a[i] else if i == |a| then x else b[i - |a| - 1];
      assert all[j] == if j < |a| then a[j] else if j == |a| then x else b[j - |a| - 1];
      assert i < |a| ==> a[i] in ToSet(a);
      assert j > |a| ==> b[j - |a| - 1] in ToSet(b);
    }
  }

  /** No item is freed twice. */
  lemma {:induction false} FreedOnce(ts: seq<Shape>)
    requires Forest(ts)
    ensures NoRepeats(FreeOrder(ts))
  {
    if ts != [] {
      ForestParts(ts);
      FreedOnce(ts[0].kids);
      FreedOnce(ts[1..]);
      FreedExactly(ts[0].kids);
      FreedExactly(ts[1..]);
      assert ts[0].item !in ToSet(FreeOrder(ts[0].kids)) && ts[0].item !in ToSet(FreeOrder(ts[1..]));
      JoinNoRepeats(FreeOrder(ts[0].kids), ts[0].item, FreeOrder(ts[1..]));
    }
  }

  twostate lemma StillLinked(t: Shape)
    requires Proper(t) && old(Linked(t))
    requires unchanged(t.item`child) && unchanged(t.below`child, t.below`next, t.below`prev)
    ensures Linked(t)
  {
  }

  /** One round of the loop in cJSON_Delete: the kids of a node are freed, then the node. */
  method DeleteNode(c: Item, heap: Heap, ghost t: Shape) returns (ghost log: seq<Item>)
    requires t.item == c && Tree(t) && t.Nodes() <= heap.live
    modifies heap`live
    ensures log == FreeOrder(t.kids) + [c] && heap.live == old(heap.live) - t.Nodes()
    decreases t
  {
    ForestParts([t]);
    log := [];
    if c.child != null {
      log := Delete(c.child, heap, t.kids);
    }
    heap.Free(c);
    log := log + [c];
  }

  lemma LessLive(live: set<Item>, whole: set<Item>, nodes: set<Item>, rest: set<Item>)
    requires nodes !! rest && nodes + rest <= whole
    ensures (live - (whole - (nodes + rest))) - nodes == live - (whole - rest)
  {
  }

  /** cJSON_Delete on a sibling list. A node is looked at only while it is live, and what is
      freed is live, so that nothing is freed twice. */
  method Delete(start: Item?, heap: Heap, ghost ts: seq<Shape>) returns (ghost log: seq<Item>)
    requires Forest(ts) && forall k | k in ts :: Linked(k)
    requires start == At(Roots(ts), 0)
    requires forall i {:trigger ts[i].item.next} | 0 <= i < |ts| :: ts[i].item.next == At(Roots(ts), i + 1)
    requires AllNodes(ts) <= heap.live
    modifies heap`live
    ensures log == FreeOrder(ts) && heap.live == old(heap.live) - AllNodes(ts)
    decreases ts
  {
    var c := start;
    log := [];
    ghost var i := 0;
    ghost var rest := ts;
    while c != null
      invariant 0 <= i <= |ts| && rest == ts[i..] && c == At(Roots(ts), i)
      invariant Forest(rest) && AllNodes(rest) <= AllNodes(ts)
      invariant heap.live == old(heap.live) - (AllNodes(ts) - AllNodes(rest))
      invariant log + FreeOrder(rest) == FreeOrder(ts)
      decreases |rest|
    {
      ghost var t := ts[i];
      assert t in ts;
      ForestParts(rest);
      assert c in heap.live;
      var next := c.next;
      LessLive(old(heap.live), AllNodes(ts), t.Nodes(), AllNodes(rest[1..]));
      ghost var more := DeleteNode(c, heap, t);
      Assoc(log, more, FreeOrder(rest[1..]));
      log := log + more;
      c := next;
      i := i + 1;
      rest := rest[1..];
    }
  }

  // ---------------------------------------------- removing and replacing kids

  ghost function Removed(t: Shape, i: nat): Shape
    requires i < |t.kids|
  {
    Shape(t.item, t.below - t.kids[i].Nodes(), Without(t.kids, i))
  }

  lemma RemovedKids(t: Shape, i: nat)
    requires Proper(t) && i < |t.kids|
    ensures var kids := Removed(t, i).kids;
            && (forall k | k in kids :: k in t.kids && k.Nodes() !! t.kids[i].Nodes())
            && Apart(kids)
  {
    var kids := Removed(t, i).kids;
    forall j | 0 <= j < |kids|
      ensures kids[j] in t.kids && kids[j].Nodes() !! t.kids[i].Nodes()
    {
      assert kids[j] == t.kids[if j < i then j else j + 1];
      assert j < i ==> t.kids[j].Nodes() !! t.kids[i].Nodes();
    }
    forall j, k | 0 <= j < k < |kids|
      ensures kids[j].Nodes() !! kids[k].Nodes()
    {
      assert kids[j] == t.kids[if j < i then j else j + 1] && kids[k] == t.kids[if k < i then k else k + 1];
    }
  }

  lemma RemovedProper(t: Shape, i: nat)
    requires Proper(t) && i < |t.kids|
    ensures Proper(Removed(t, i)) && Roots(Removed(t, i).kids) == Without(Roots(t.kids), i)
    ensures forall k | k in Removed(t, i).kids :: k in t.kids
    ensures Removed(t, i).below - Tops(Removed(t, i)) <= t.below - Tops(t)
  {
    RemovedKids(t, i);
    RemovedRoots(t, i);
    forall k | k in Removed(t, i).kids
      ensures k.item in Removed(t, i).below && k.below <= Removed(t, i).below
    {
      assert k.item in k.Nodes();
    }
  }

  lemma RemovedRoots(t: Shape, i: nat)
    requires i < |t.kids|
    ensures Roots(Removed(t, i).kids) == Without(Roots(t.kids), i)
    ensures Removed(t, i).below - Tops(Removed(t, i)) <= t.below - Tops(t)
  {
    var roots := Without(Roots(t.kids), i);
    assert Roots(Removed(t, i).kids) == roots;
    forall x, j | x in t.below && x !in t.kids[i].Nodes() && x !in roots && 0 <= j < |t.kids|
      ensures Roots(t.kids)[j] != x
    {
      assert j != i ==> Roots(t.kids)[j] == roots[if j < i then j else j - 1];
      assert t.kids[i].item in t.kids[i].Nodes();
    }
  }

  lemma {:induction false} RemovedEntries(t: Shape, i: nat)
    requires Proper(t) && i < |t.kids| && Proper(Removed(t, i))
    ensures Entries(Removed(t, i)) == Without(Entries(t), i)
  {
  }

  lemma OneTree(t: Shape)
    requires Proper(t) && Full(t)
    ensures Forest([t]) && AllNodes([t]) == t.Nodes()
  {
    assert t in [t];
  }

  lemma RemovedFull(t: Shape, i: nat)
    requires Proper(t) && Full(t) && i < |t.kids|
    ensures Full(Removed(t, i)) && AllNodes(Without(t.kids, i)) == t.below - t.kids[i].Nodes()
  {
    var kids := Without(t.kids, i);
    NodesAround(t.kids, i);
    NodesOfBoth(t.kids[..i], t.kids[i + 1..]);
    RemovedKids(t, i);
    NodesApart(t.kids[i].Nodes(), kids);
  }

  datatype Removal = Removal(t: Shape, i: nat)

  /** What a tree becomes when its i-th kid is taken out of the child list: the rest
      holds the other names and values in order. */
  twostate lemma RemovedTree(r: Removal)
    requires old(Tree(r.t)) && r.i < |r.t.kids| && OnlyRelinked(r.t)
    requires Children(r.t.item, Without(Roots(r.t.kids), r.i))
    requires unchanged(r.t.below`kind, r.t.below`valueint, r.t.below`valuestring, r.t.below`name)
    ensures Tree(Removed(r.t, r.i)) && Entries(Removed(r.t, r.i)) == Without(old(Entries(r.t)), r.i)
    ensures Tree(r.t.kids[r.i])
  {
    assert r.t.kids[r.i] in r.t.kids;
    StillKids(r.t);
    RemovedProper(r.t, r.i);
    RemovedFull(r.t, r.i);
    RemovedEntries(r.t, r.i);
    StillEntries(r.t);
    RemovedLinked(r);
  }

  twostate lemma StillEntries(t: Shape)
    requires Proper(t) && unchanged(t.below`kind, t.below`valueint, t.below`valuestring, t.below`name)
    ensures Entries(t) == old(Entries(t))
  {
  }

  twostate lemma RemovedLinked(r: Removal)
    requires old(Tree(r.t)) && r.i < |r.t.kids| && OnlyRelinked(r.t) && Proper(Removed(r.t, r.i))
    requires Children(r.t.item, Without(Roots(r.t.kids), r.i))
    ensures Linked(Removed(r.t, r.i))
  {
    RemovedProper(r.t, r.i);
    TopsOutside(r.t);
    Relinked(Removed(r.t, r.i));
  }

  /** Deleting one tree leaves another as it was. */
  method DeleteBeside(c: Item, heap: Heap, ghost t: Shape, ghost other: Shape) returns (ghost log: seq<Item>)
    requires t.item == c && Tree(t) && c.next == null && t.Nodes() <= heap.live && Tree(other)
    modifies heap`live
    ensures log == FreeOrder([t]) && heap.live == old(heap.live) - t.Nodes()
    ensures Tree(other) && Entries(other) == old(Entries(other))
  {
    log := DeleteTree(c, heap, t);
  }

  /** cJSON_Delete on a tree that hangs in no list: exactly its nodes are freed, each once. */
  method DeleteTree(c: Item, heap: Heap, ghost t: Shape) returns (ghost log: seq<Item>)
    requires t.item == c && Tree(t) && c.next == null && t.Nodes() <= heap.live
    modifies heap`live
    ensures log == FreeOrder([t]) && NoRepeats(log) && ToSet(log) == t.Nodes()
    ensures heap.live == old(heap.live) - t.Nodes()
  {
    OneTree(t);
    FreedOnce([t]);
    FreedExactly([t]);
    log := Delete(c, heap, [t]);
  }

  /** cJSON_DetachItemFromArray on trees: the tree holds the other names and values in
      order, and the detached kid is a tree of its own with both links cleared. */
  method DetachTree(parent: Item, which: int, ghost t: Shape) returns (c: Item?, ghost i: nat)
    requires t.item == parent && Tree(t)
    modifies parent`child, Tops(t)`next, Tops(t)`prev
    ensures i == if which < 0 then 0 else which
    ensures c != null <==> i < |t.kids|
    ensures c == null ==> Tree(t) && Entries(t) == old(Entries(t))
    ensures c != null ==>
              && Tree(Removed(t, i)) && Entries(Removed(t, i)) == Without(old(Entries(t)), i)
              && c == t.kids[i].item && Tree(t.kids[i]) && c.next == null && c.prev == null
  {
    i := if which < 0 then 0 else which;
    c := DetachItemFromArray(parent, which, Roots(t.kids));
    if c != null {
      RemovedTree(Removal(t, i));
    } else {
      SameTree(t);
    }
  }

  /** cJSON_DeleteItemFromArray: one kid leaves the tree, which holds the other names and
      values in order, and exactly the nodes of the kid are freed. */
  method DeleteItemFromArray(parent: Item, which: int, heap: Heap, ghost t: Shape) returns (ghost log: seq<Item>)
    requires t.item == parent && Tree(t) && t.Nodes() <= heap.live
    modifies parent`child, Tops(t)`next, Tops(t)`prev, heap`live
    ensures var i := if which < 0 then 0 else which;
            if i < |t.kids| then
              && Tree(Removed(t, i)) && Entries(Removed(t, i)) == Without(old(Entries(t)), i)
              && log == FreeOrder([t.kids[i]]) && heap.live == old(heap.live) - t.kids[i].Nodes()
            else Tree(t) && Entries(t) == old(Entries(t)) && log == [] && heap.live == old(heap.live)
  {
    log := [];
    var c;
    ghost var i;
    c, i := DetachTree(parent, which, t);
    if c != null {
      assert t.kids[i] in t.kids;
      log := DeleteBeside(c, heap, t.kids[i], Removed(t, i));
    }
  }

  ghost function Replaced(t: Shape, i: nat, k: Shape): Shape
    requires i < |t.kids|
  {
    Shape(t.item, t.below - t.kids[i].Nodes() + k.Nodes(), t.kids[i := k])
  }

  lemma ReplacedProper(t: Shape, i: nat, k: Shape)
    requires Proper(t) && Proper(k) && k.Nodes() !! t.Nodes() && i < |t.kids|
    ensures Proper(Replaced(t, i, k)) && Roots(Replaced(t, i, k).kids) == Roots(t.kids)[i := k.item]
    ensures forall m | m in t.kids[i := k] :: m == k || m in t.kids
  {
    var kids := t.kids[i := k];
    forall j | 0 <= j < |kids| && j != i
      ensures kids[j] in t.kids && kids[j].Nodes() !! t.kids[i].Nodes() && kids[j].item in kids[j].Nodes()
    {
      assert j < i ==> t.kids[j].Nodes() !! t.kids[i].Nodes();
    }
    forall j, l | 0 <= j < l < |kids|
      ensures kids[j].Nodes() !! kids[l].Nodes()
    {
      assert j != i ==> kids[j] in t.kids;
      assert l != i ==> kids[l] in t.kids;
      assert j != i && l != i ==> t.kids[j].Nodes() !! t.kids[l].Nodes();
    }
  }

  lemma ReplacedEntries(t: Shape, i: nat, k: Shape)
    requires Proper(t) && Proper(k) && i < |t.kids| && Proper(Replaced(t, i, k))
    ensures Entries(Replaced(t, i, k)) == Entries(t)[i := Field(k.item.name, Value(k))]
  {
  }

  lemma ReplacedFull(t: Shape, i: nat, k: Shape)
    requires Proper(t) && Full(t) && Full(k) && i < |t.kids|
    ensures Full(Replaced(t, i, k))
  {
    var kids := t.kids[i := k];
    RemovedFull(t, i);
    NodesAround(kids, i);
    NodesOfBoth(t.kids[..i], t.kids[i + 1..]);
    assert kids[..i] == t.kids[..i] && kids[i + 1..] == t.kids[i + 1..];
  }

  datatype Exchange = Exchange(t: Shape, i: nat, k: Shape)

  /** What a tree becomes when another tree takes the place of its i-th kid. */
  twostate lemma ReplacedTree(x: Exchange)
    requires old(Tree(x.t)) && old(Tree(x.k)) && x.k.Nodes() !! x.t.Nodes() && x.i < |x.t.kids| && OnlyRelinked(x.t)
    requires unchanged(x.k.item`child, x.k.below`child, x.k.below`next, x.k.below`prev)
    requires unchanged(x.t.below`kind, x.t.below`valueint, x.t.below`valuestring, x.t.below`name)
    requires unchanged(x.k.below`kind, x.k.below`valueint, x.k.below`valuestring, x.k.below`name)
    requires unchanged(x.k.item`kind, x.k.item`valueint, x.k.item`valuestring, x.k.item`name)
    requires Children(x.t.item, Roots(x.t.kids)[x.i := x.k.item])
    ensures Tree(Replaced(x.t, x.i, x.k))
    ensures Entries(Replaced(x.t, x.i, x.k)) == old(Entries(x.t))[x.i := old(Field(x.k.item.name, Value(x.k)))]
    ensures Tree(x.t.kids[x.i])
  {
    assert x.t.kids[x.i] in x.t.kids;
    StillKids(x.t);
    ReplacedProper(x.t, x.i, x.k);
    ReplacedFull(x.t, x.i, x.k);
    ReplacedEntries(x.t, x.i, x.k);
    StillEntries(x.t);
    StillValue(x.k);
    ReplacedLinked(x);
  }

  twostate lemma ReplacedLinked(x: Exchange)
    requires old(Tree(x.t)) && old(Tree(x.k)) && x.i < |x.t.kids| && OnlyRelinked(x.t)
    requires x.k.Nodes() !! x.t.Nodes() && Proper(Replaced(x.t, x.i, x.k))
    requires unchanged(x.k.item`child, x.k.below`child, x.k.below`next, x.k.below`prev)
    requires Children(x.t.item, Roots(x.t.kids)[x.i := x.k.item])
    ensures Linked(Replaced(x.t, x.i, x.k))
  {
    ReplacedProper(x.t, x.i, x.k);
    StillKids(x.t);
    StillLinked(x.k);
  }

  /** cJSON_ReplaceItemInArray on trees, up to its closing cJSON_Delete. */
  method SwapTree(parent: Item, which: int, newitem: Item, ghost t: Shape, ghost k: Shape)
    returns (c: Item?, ghost i: nat)
    requires t.item == parent && Tree(t) && k.item == newitem && Tree(k) && k.Nodes() !! t.Nodes()
    modifies parent`child, Tops(t)`next, Tops(t)`prev, newitem`next, newitem`prev
    ensures i == if which < 0 then 0 else which
    ensures c != null <==> i < |t.kids|
    ensures c == null ==> Tree(t) && Entries(t) == old(Entries(t))
    ensures c != null ==>
              && Tree(Replaced(t, i, k))
              && Entries(Replaced(t, i, k)) == old(Entries(t))[i := old(Field(newitem.name, Value(k)))]
              && c == t.kids[i].item && Tree(t.kids[i]) && c.next == null && c.prev == null
  {
    i := if which < 0 then 0 else which;
    NotAmongRoots(t, newitem);
    c := SwapItem(parent, which, newitem, Roots(t.kids));
    if c == null {
      SameTree(t);
      return;
    }
    ReplacedTree(Exchange(t, i, k));
  }

  /** cJSON_ReplaceItemInArray: the new tree is in the place of one kid, and exactly the
      nodes of that kid are freed. */
  method ReplaceItemInArray(parent: Item, which: int, newitem: Item, heap: Heap, ghost t: Shape, ghost k: Shape)
    returns (ghost log: seq<Item>)
    requires t.item == parent && Tree(t) && k.item == newitem && Tree(k) && k.Nodes() !! t.Nodes()
    requires t.Nodes() <= heap.live
    modifies parent`child, Tops(t)`next, Tops(t)`prev, newitem`next, newitem`prev, heap`live
    ensures var i := if which < 0 then 0 else which;
            if i < |t.kids| then
              && Tree(Replaced(t, i, k))
              && Entries(Replaced(t, i, k)) == old(Entries(t))[i := old(Field(newitem.name, Value(k)))]
              && log == FreeOrder([t.kids[i]]) && heap.live == old(heap.live) - t.kids[i].Nodes()
            else Tree(t) && Entries(t) == old(Entries(t)) && log == [] && heap.live == old(heap.live)
  {
    log := [];
    var c;
    ghost var i;
    c, i := SwapTree(parent, which, newitem, t, k);
    if c != null {
      assert t.kids[i] in t.kids;
      log := DeleteBeside(c, heap, t.kids[i], Replaced(t, i, k));
    }
  }

  // ----------------------------------------------------------------- building

  lemma UnionAssoc(a: set<Item>, b: set<Item>, c: set<Item>)
    ensures a + b + c == a + (b + c)
  {
  }

  /** The list so far: a tree with these names and values, and p is its last node. */
  ghost predicate Strung(a: Item, p: Item?, t: Shape, fields: seq<Field>)
    reads t.item`child, t.below`child, t.below`next, t.below`prev
    reads t.below`kind, t.below`valueint, t.below`valuestring, t.below`name
  {
    t.item == a && Tree(t) && p == At(Roots(t.kids), |t.kids| - 1) && Entries(t) == fields
  }

  /** Hangs an item behind the last item p of a list: the first item becomes the child,
      every other one goes through suffix_object. */
  method LinkItem(a: Item, p: Item?, n: Item, ghost items: seq<Item>)
    requires Children(a, items) && p == At(items, |items| - 1)
    requires n !in items && n.next == null && n.prev == null
    modifies a`child, (if p == null then {} else {p})`next, n`prev
    ensures Children(a, items + [n])
  {
    if p == null {
      a.child := n;
    } else {
      AllDistinct(a, items);
      SuffixObject(p, n);
    }
  }

  /** The items of t, and behind its kids one more node, which is a tree of its own or is
      about to become one. */
  ghost predicate Hung(t: Shape, n: Item)
    requires Proper(t)
    reads t.item`child, t.below`child, t.below`next, t.below`prev, n`next, n`prev
  {
    && Children(t.item, Roots(t.kids) + [n])
    && forall k | k in t.kids :: Linked(k)
  }

  /** A new node is linked behind the last one before anything is parsed into it. */
  method HangLast(a: Item, p: Item?, n: Item, ghost t: Shape)
    requires t.item == a && Tree(t) && n !in t.Nodes()
    requires p == At(Roots(t.kids), |t.kids| - 1) && n.next == null && n.prev == null
    modifies a`child, (if p == null then {} else {p})`next, n`prev
    ensures Hung(t, n) && Entries(t) == old(Entries(t))
  {
    NotAmongRoots(t, n);
    TopsOutside(t);
    assert p == null || p in Tops(t);
    LinkItem(a, p, n, Roots(t.kids));
    StillKids(t);
  }

  /** A new node leaves the list as it was. */
  method NewBeside(heap: Heap, a: Item, p: Item?, ghost t: Shape, ghost fields: seq<Field>) returns (n: Item)
    requires Strung(a, p, t, fields)
    modifies heap`live
    ensures fresh(n) && heap.live == old(heap.live) + {n}
    ensures n.next == null && n.prev == null && n.child == null && n !in t.Nodes()
    ensures Strung(a, p, t, fields)
  {
    n := new Item(heap);
  }

  /** A new node behind the last one. */
  method HangNew(a: Item, p: Item?, heap: Heap, ghost t: Shape, ghost fields: seq<Field>) returns (n: Item)
    requires Strung(a, p, t, fields)
    modifies a`child, t.below`next, heap`live
    ensures fresh(n) && heap.live == old(heap.live) + {n} && n.child == null && n !in t.Nodes()
    ensures Hung(t, n) && Entries(t) == fields
  {
    LastBelow(t);
    n := NewBeside(heap, a, p, t, fields);
    HangLast(a, p, n, t);
  }

  /** Relinking the roots of the kids leaves the kids as they are. */
  twostate lemma StillKids(t: Shape)
    requires Proper(t) && OnlyRelinked(t) && forall k | k in t.kids :: old(Linked(k))
    ensures forall k | k in t.kids :: Linked(k)
  {
    TopsOutside(t);
    forall k | k in t.kids
      ensures Linked(k)
    {
      assert k.item in Tops(t);
      assert k.below <= t.below - Tops(t);
    }
  }

  twostate lemma SameTree(t: Shape)
    requires old(Tree(t)) && OnlyRelinked(t) && Children(t.item, Roots(t.kids))
    requires unchanged(t.below`kind, t.below`valueint, t.below`valuestring, t.below`name)
    ensures Tree(t) && Entries(t) == old(Entries(t))
  {
    StillKids(t);
    StillEntries(t);
  }

  /** When the node that hangs behind the kids has become a tree, the whole is one. */
  lemma Assembled(t: Shape, k: Shape)
    requires Proper(t) && Full(t) && Tree(k) && k.Nodes() !! t.Nodes() && Hung(t, k.item)
    ensures Tree(Appended(t, k)) && Roots(Appended(t, k).kids) == Roots(t.kids) + [k.item]
    ensures Entries(Appended(t, k)) == Entries(t) + [Field(k.item.name, Value(k))]
  {
    AppendedProper(t, k);
    AppendedFull(t, k);
    AppendedEntries(t, k);
  }

  lemma AssembledList(t: Shape, k: Shape, fields: seq<Field>)
    requires Proper(t) && Full(t) && Tree(k) && k.Nodes() !! t.Nodes() && Hung(t, k.item) && Entries(t) == fields
    ensures Strung(t.item, k.item, Appended(t, k), fields + [Field(k.item.name, Value(k))])
    ensures Appended(t, k).below == t.below + {k.item} + k.below
  {
    Assembled(t, k);
    UnionAssoc(t.below, {k.item}, k.below);
  }

  /** A finished tree behind the last kid. */
  method LinkLast(a: Item, p: Item?, n: Item, ghost t: Shape, ghost k: Shape)
    requires t.item == a && Tree(t) && k.item == n && Tree(k) && k.Nodes() !! t.Nodes()
    requires p == At(Roots(t.kids), |t.kids| - 1) && n.next == null && n.prev == null
    modifies a`child, (if p == null then {} else {p})`next, n`prev
    ensures Tree(Appended(t, k))
    ensures Entries(Appended(t, k)) == old(Entries(t)) + [old(Field(k.item.name, Value(k)))]
  {
    NotAmongRoots(t, n);
    LinkItem(a, p, n, Roots(t.kids));
    AppendedTree(Joining(t, k));
  }

  /** cJSON_CreateNumber, for a number that is an int. */
  method CreateNumber(num: cint, heap: Heap) returns (item: Item)
    modifies heap`live
    ensures heap.live == old(heap.live) + {item}
    ensures fresh(item) && Tree(Leaf(item)) && Value(Leaf(item)) == Number(num)
    ensures item.next == null && item.prev == null
  {
    item := new Item(heap);
    item.kind := KNumber;
    item.valueint := num;
  }

  ghost function Numbers(numbers: seq<cint>): (vs: seq<Json>)
    ensures |vs| == |numbers| && forall i | 0 <= i < |numbers| :: vs[i] == Number(numbers[i])
  {
    seq(|numbers|, i requires 0 <= i < |numbers| => Number(numbers[i]))
  }

  /** A new number leaves the list as it was. */
  method NumberBeside(num: cint, heap: Heap, a: Item, p: Item?, ghost t: Shape, ghost fields: seq<Field>)
    returns (item: Item)
    requires Strung(a, p, t, fields)
    modifies heap`live
    ensures heap.live == old(heap.live) + {item} && fresh(item)
    ensures Tree(Leaf(item)) && Value(Leaf(item)) == Number(num) && item.next == null && item.prev == null
    ensures Strung(a, p, t, fields) && item !in t.Nodes()
  {
    item := CreateNumber(num, heap);
  }

  /** A node behind the last one. */
  method LinkNode(a: Item, p: Item?, n: Item, ghost t: Shape, ghost fields: seq<Field>, ghost v: Json)
    requires Strung(a, p, t, fields) && n !in t.Nodes()
    requires Tree(Leaf(n)) && Value(Leaf(n)) == v && n.next == null && n.prev == null
    modifies a`child, (if p == null then {} else {p})`next, n`prev
    ensures Strung(a, n, Appended(t, Leaf(n)), fields + [Field(n.name, v)])
  {
    LinkLast(a, p, n, t, Leaf(n));
  }

  lemma LastBelow(t: Shape)
    requires Proper(t)
    ensures forall i | 0 <= i < |t.kids| :: Roots(t.kids)[i] in t.below
  {
    forall i | 0 <= i < |t.kids|
      ensures Roots(t.kids)[i] in t.below
    {
      assert t.kids[i] in t.kids;
    }
  }

  /** A new number behind the last node. */
  method LinkNumber(a: Item, p: Item?, num: cint, heap: Heap, ghost t: Shape, ghost fields: seq<Field>)
    returns (n: Item, ghost more: Shape, ghost f: Field)
    requires Strung(a, p, t, fields)
    modifies a`child, t.below`next, heap`live
    ensures heap.live == old(heap.live) + {n} && fresh(n)
    ensures Strung(a, n, more, fields + [f]) && f.value == Number(num) && more.below == t.below + {n}
  {
    LastBelow(t);
    n := NumberBeside(num, heap, a, p, t, fields);
    f := Field(n.name, Number(num));
    LinkNode(a, p, n, t, fields, Number(num));
    more := Appended(t, Leaf(n));
  }

  lemma NumbersOfMore(fields: seq<Field>, f: Field, numbers: seq<cint>, i: nat)
    requires i < |numbers| && Elems(fields) == Numbers(numbers[..i]) && f.value == Number(numbers[i])
    ensures Elems(fields + [f]) == Numbers(numbers[..i + 1])
  {
  }

  /** One round of the loop in cJSON_CreateIntArray. */
  method AddNumber(a: Item, p: Item?, numbers: seq<cint>, i: nat, heap: Heap, ghost t: Shape, ghost fields: seq<Field>)
    returns (n: Item, ghost more: Shape, ghost all: seq<Field>)
    requires i < |numbers| && Strung(a, p, t, fields) && Elems(fields) == Numbers(numbers[..i])
    modifies a`child, t.below`next, heap`live
    ensures heap.live == old(heap.live) + {n} && fresh(n)
    ensures Strung(a, n, more, all) && Elems(all) == Numbers(numbers[..i + 1]) && more.below == t.below + {n}
  {
    ghost var f;
    n, more, f := LinkNumber(a, p, numbers[i], heap, t, fields);
    all := fields + [f];
    NumbersOfMore(fields, f, numbers, i);
  }

  /** The loop in cJSON_CreateIntArray. */
  method AddNumbers(a: Item, numbers: seq<cint>, heap: Heap) returns (ghost t: Shape)
    requires a.child == null
    modifies a`child, heap`live
    ensures heap.live == old(heap.live) + t.below
    ensures t.item == a && fresh(t.below) && Tree(t)
    ensures Elems(Entries(t)) == Numbers(numbers)
  {
    ghost var fields := [];
    t := Leaf(a);
    var i := 0;
    var p: Item? := null;
    while i < |numbers|
      invariant 0 <= i <= |numbers| && Strung(a, p, t, fields) && Elems(fields) == Numbers(numbers[..i])
      invariant fresh(t.below) && heap.live == old(heap.live) + t.below
    {
      ghost var below := t.below;
      p, t, fields := AddNumber(a, p, numbers, i, heap, t, fields);
      UnionAssoc(old(heap.live), below, {p});
      i := i + 1;
    }
    assert numbers[..i] == numbers;
  }

  lemma ArrayValue(a: Item, t: Shape)
    requires Proper(t) && t.item == a && a.kind == KArray
    ensures Value(t) == Array(Elems(Entries(t)))
  {
  }

  /** cJSON_CreateIntArray. */
  method CreateIntArray(numbers: seq<cint>, heap: Heap) returns (a: Item, ghost t: Shape)
    modifies heap`live
    ensures heap.live == old(heap.live) + t.Nodes()
    ensures t.item == a && fresh(t.Nodes()) && Tree(t) && Value(t) == Array(Numbers(numbers))
  {
    a := new Item(heap);
    a.kind := KArray;
    t := AddNumbers(a, numbers, heap);
    ArrayValue(a, t);
  }

  lemma NotAmongRoots(t: Shape, x: Item)
    requires Proper(t) && x !in t.below
    ensures x !in Roots(t.kids)
  {
    forall i | 0 <= i < |t.kids|
      ensures Roots(t.kids)[i] != x
    {
      assert t.kids[i] in t.kids;
    }
  }
}
