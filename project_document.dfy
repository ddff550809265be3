/**
 * A project file as the services see it: the children of the `<Project>` root, in
 * order.  Property groups hold named text properties; item groups hold items, each
 * with a kind, an optional `Include` attribute and an optional `Version` attribute.
 * Every XPath query of the form `/Project/ItemGroup/<Kind>` or
 * `/Project/PropertyGroup/<Name>` is a flattening of this tree in document order.
 */
module ProjectDocument {
  import opened Wrappers
  import opened Errors

  datatype ItemKind = PackageReference | ProjectReference | OtherItem(tag: string)

  datatype Item = Item(kind: ItemKind, includeAttr: Option<string>, version: Option<string>)

  datatype Property = Property(name: string, value: string)

  datatype Element =
    | PropertyGroup(properties: seq<Property>)
    | ItemGroup(items: seq<Item>)
    | OtherElement(tag: string)

  type Document = seq<Element>

  /** Regrouping a concatenation whose first part is peeled off. */
  lemma Regroup<T>(x: seq<T>, a: seq<T>, e: seq<T>, c: seq<T>)
    ensures x + (a + e + c) == (x + a) + e + c
  {
  }

  // ---------------------------------------------------------------------------
  // References of one kind, in document order
  // ---------------------------------------------------------------------------

  /** The `Include` values of the items of kind `k`, in order. */
  function RefsIn(items: seq<Item>, k: ItemKind): seq<Option<string>> {
    if |items| == 0 then []
    else (if items[0].kind == k then [items[0].includeAttr] else []) + RefsIn(items[1..], k)
  }

  function ElementRefs(e: Element, k: ItemKind): seq<Option<string>> {
    if e.ItemGroup? then RefsIn(e.items, k) else []
  }

  /** `/Project/ItemGroup/<k>`: the `Include` values of all items of kind `k`, in document order. */
  function Refs(d: Document, k: ItemKind): seq<Option<string>> {
    if |d| == 0 then [] else ElementRefs(d[0], k) + Refs(d[1..], k)
  }

  lemma {:induction false} RefsInAppend(a: seq<Item>, b: seq<Item>, k: ItemKind)
    ensures RefsIn(a + b, k) == RefsIn(a, k) + RefsIn(b, k)
  {
    if |a| > 0 {
      assert (a + b)[1..] == a[1..] + b;
      RefsInAppend(a[1..], b, k);
    } else {
      assert a + b == b;
    }
  }

  lemma {:induction false} RefsAppend(a: Document, b: Document, k: ItemKind)
    ensures Refs(a + b, k) == Refs(a, k) + Refs(b, k)
  {
    if |a| > 0 {
      assert (a + b)[1..] == a[1..] + b;
      RefsAppend(a[1..], b, k);
    } else {
      assert a + b == b;
    }
  }

  /** The references of `d` split around element `i`. */
  lemma {:induction false} RefsAround(d: Document, i: nat, k: ItemKind)
    requires i < |d|
    ensures Refs(d, k) == Refs(d[..i], k) + ElementRefs(d[i], k) + Refs(d[i + 1..], k)
  {
    if i == 0 {
      assert d[..0] == [];
    } else {
      RefsAround(d[1..], i - 1, k);
      assert d[1..][..i - 1] == d[..i][1..];
      assert d[1..][i - 1] == d[i];
      assert d[1..][i..] == d[i + 1..];
      Regroup(ElementRefs(d[0], k), Refs(d[..i][1..], k), ElementRefs(d[i], k), Refs(d[i + 1..], k));
    }
  }

  /** The references of `d` split at any position. */
  lemma {:induction false} RefsSplit(d: Document, p: nat, k: ItemKind)
    requires p <= |d|
    ensures Refs(d, k) == Refs(d[..p], k) + Refs(d[p..], k)
  {
    if p == 0 {
      assert d[..0] == [] && d[0..] == d;
    } else {
      var head, tail := ElementRefs(d[0], k), d[1..];
      RefsSplit(tail, p - 1, k);
      assert tail[..p - 1] == d[..p][1..];
      assert tail[p - 1..] == d[p..];
      assert Refs(d[..p], k) == head + Refs(tail[..p - 1], k);
      ConcatAssoc(head, Refs(tail[..p - 1], k), Refs(d[p..], k));
    }
  }

  lemma ConcatAssoc<T>(x: seq<T>, y: seq<T>, z: seq<T>)
    ensures x + (y + z) == (x + y) + z
  {
  }

  /** Items of another kind do not show up among the references of kind `k`. */
  lemma {:induction false} RefsInOtherKind(items: seq<Item>, k: ItemKind)
    requires forall j :: 0 <= j < |items| ==> items[j].kind != k
    ensures RefsIn(items, k) == []
  {
    if |items| > 0 {
      RefsInOtherKind(items[1..], k);
    }
  }

  /** Index within `items` of the item holding the `n`-th reference of kind `k`. */
  function LocateIn(items: seq<Item>, k: ItemKind, n: nat): (j: nat)
    requires n < |RefsIn(items, k)|
    ensures j < |items| && items[j].kind == k
    ensures |RefsIn(items[..j], k)| == n
    ensures RefsIn(items, k)[n] == items[j].includeAttr
  {
    if items[0].kind == k && n == 0 then
      assert items[..0] == [];
      0
    else
      var skip := if items[0].kind == k then 1 else 0;
      var j := LocateIn(items[1..], k, n - skip);
      LocateInNext(items, k, n, skip, j);
      j + 1
  }

  /** The item found in the tail is the one found in the whole list, one position further on. */
  lemma LocateInNext(items: seq<Item>, k: ItemKind, n: nat, skip: nat, j: nat)
    requires |items| > 0 && skip == (if items[0].kind == k then 1 else 0) && skip <= n
    requires j < |items[1..]| && items[1..][j].kind == k
    requires |RefsIn(items[1..][..j], k)| == n - skip
    requires n - skip < |RefsIn(items[1..], k)| && RefsIn(items[1..], k)[n - skip] == items[1..][j].includeAttr
    ensures j + 1 < |items| && items[j + 1].kind == k
    ensures |RefsIn(items[..j + 1], k)| == n
    ensures n < |RefsIn(items, k)| && RefsIn(items, k)[n] == items[j + 1].includeAttr
  {
    assert items[..j + 1] == [items[0]] + items[1..][..j];
    RefsInAppend([items[0]], items[1..][..j], k);
    assert [items[0]][1..] == [];
  }

  /** Position (element, item) of the `n`-th reference of kind `k` in document order. */
  function Locate(d: Document, k: ItemKind, n: nat): (loc: (nat, nat))
    requires n < |Refs(d, k)|
    ensures loc.0 < |d| && d[loc.0].ItemGroup? && loc.1 < |d[loc.0].items|
    ensures d[loc.0].items[loc.1].kind == k
    ensures |Refs(d[..loc.0], k)| + |RefsIn(d[loc.0].items[..loc.1], k)| == n
    ensures Refs(d, k)[n] == d[loc.0].items[loc.1].includeAttr
  {
    var here := ElementRefs(d[0], k);
    if n < |here| then
      assert d[..0] == [];
      (0, LocateIn(d[0].items, k, n))
    else
      var loc := Locate(d[1..], k, n - |here|);
      LocateNext(d, k, n, loc.0, loc.1);
      (loc.0 + 1, loc.1)
  }

  /** The item found in the tail of the document is the one found in the whole, one element further on. */
  lemma LocateNext(d: Document, k: ItemKind, n: nat, i: nat, j: nat)
    requires |d| > 0 && |ElementRefs(d[0], k)| <= n
    requires i < |d[1..]| && d[1..][i].ItemGroup? && j < |d[1..][i].items| && d[1..][i].items[j].kind == k
    requires |Refs(d[1..][..i], k)| + |RefsIn(d[1..][i].items[..j], k)| == n - |ElementRefs(d[0], k)|
    requires n - |ElementRefs(d[0], k)| < |Refs(d[1..], k)|
    requires Refs(d[1..], k)[n - |ElementRefs(d[0], k)|] == d[1..][i].items[j].includeAttr
    ensures i + 1 < |d| && d[i + 1].ItemGroup? && j < |d[i + 1].items| && d[i + 1].items[j].kind == k
    ensures |Refs(d[..i + 1], k)| + |RefsIn(d[i + 1].items[..j], k)| == n
    ensures n < |Refs(d, k)| && Refs(d, k)[n] == d[i + 1].items[j].includeAttr
  {
    assert d[i + 1] == d[1..][i];
    assert d[..i + 1] == [d[0]] + d[1..][..i];
    RefsAppend([d[0]], d[1..][..i], k);
    assert [d[0]][1..] == [];
  }

  /** The reference a single item contributes to kind `k`: its `Include`, or nothing. */
  function ItemRefs(item: Item, k: ItemKind): seq<Option<string>> {
    if item.kind == k then [item.includeAttr] else []
  }

  /** The references of a list of items split around the item at index j. */
  lemma ItemsAround(items: seq<Item>, j: nat, k: ItemKind)
    requires j < |items|
    ensures RefsIn(items, k) == RefsIn(items[..j], k) + ItemRefs(items[j], k) + RefsIn(items[j + 1..], k)
  {
    assert items == items[..j] + [items[j]] + items[j + 1..];
    RefsInAppend(items[..j] + [items[j]], items[j + 1..], k);
    RefsInAppend(items[..j], [items[j]], k);
  }

  /** The references of `d` split around the item at (i, j). */
  lemma RefsAroundItem(d: Document, i: nat, j: nat, k: ItemKind)
    requires i < |d| && d[i].ItemGroup? && j < |d[i].items|
    ensures var items := d[i].items;
      Refs(d, k) == Refs(d[..i], k)
                    + (RefsIn(items[..j], k) + ItemRefs(items[j], k) + RefsIn(items[j + 1..], k))
                    + Refs(d[i + 1..], k)
  {
    RefsAround(d, i, k);
    ItemsAround(d[i].items, j, k);
  }

  /** Cutting the single middle entry out of a five-part concatenation. */
  lemma CutMiddle<T>(a: seq<T>, x: seq<T>, y: seq<T>, z: seq<T>, c: seq<T>, s: seq<T>, r: seq<T>, n: nat)
    requires |y| == 1 && n == |a| + |x|
    requires s == a + (x + y + z) + c && r == a + (x + z) + c
    ensures n < |s| && r == s[..n] + s[n + 1..]
  {
    assert s[..n] == a + x;
    assert s[n + 1..] == z + c;
  }

  // ---------------------------------------------------------------------------
  // Item edits
  // ---------------------------------------------------------------------------

  /**
   * `item.Remove()` on the item at (i, j); when `dropEmpty`, the group is removed too
   * if that left it without children (`if (!parent.HasElements) parent.Remove()`).
   */
  function RemoveItem(d: Document, i: nat, j: nat, dropEmpty: bool): Document
    requires i < |d| && d[i].ItemGroup? && j < |d[i].items|
  {
    var items := d[i].items[..j] + d[i].items[j + 1..];
    if dropEmpty && |items| == 0 then d[..i] + d[i + 1..]
    else d[i := ItemGroup(items)]
  }

  /** `group.Add(item)` on the item group at index i. */
  function AppendToGroup(d: Document, i: nat, item: Item): Document
    requires i < |d| && d[i].ItemGroup?
  {
    d[i := ItemGroup(d[i].items + [item])]
  }

  /** `element.AddAfterSelf(<ItemGroup>item</ItemGroup>)` on the element at index i. */
  function InsertGroupAfter(d: Document, i: nat, item: Item): Document
    requires i < |d|
  {
    d[..i + 1] + [ItemGroup([item])] + d[i + 1..]
  }

  /** Replacing element i by `e` changes only that element's share of the references. */
  lemma ReplaceElementRefs(d: Document, i: nat, e: Element, k: ItemKind)
    requires i < |d|
    ensures Refs(d[i := e], k) == Refs(d[..i], k) + ElementRefs(e, k) + Refs(d[i + 1..], k)
  {
    var r := d[i := e];
    RefsAround(r, i, k);
    assert r[..i] == d[..i] && r[i + 1..] == d[i + 1..];
  }

  /** What removing the item at (i, j) does to the references of any kind. */
  lemma RemoveItemRefs(d: Document, i: nat, j: nat, dropEmpty: bool, k: ItemKind)
    requires i < |d| && d[i].ItemGroup? && j < |d[i].items|
    ensures var items := d[i].items;
      Refs(RemoveItem(d, i, j, dropEmpty), k)
      == Refs(d[..i], k) + (RefsIn(items[..j], k) + RefsIn(items[j + 1..], k)) + Refs(d[i + 1..], k)
  {
    var items := d[i].items[..j] + d[i].items[j + 1..];
    RefsInAppend(d[i].items[..j], d[i].items[j + 1..], k);
    if dropEmpty && |items| == 0 {
      DropElementRefs(d, i, k);
      assert RefsIn(d[i].items[..j], k) + RefsIn(d[i].items[j + 1..], k) == RefsIn(items, k) == [];
    } else {
      ReplaceElementRefs(d, i, ItemGroup(items), k);
    }
  }

  /** Dropping element i removes only that element's share of the references. */
  lemma DropElementRefs(d: Document, i: nat, k: ItemKind)
    requires i < |d|
    ensures Refs(d[..i] + d[i + 1..], k) == Refs(d[..i], k) + [] + Refs(d[i + 1..], k)
  {
    RefsAppend(d[..i], d[i + 1..], k);
  }

  /** Removing the `n`-th reference of kind `k` takes exactly that entry out of `Refs(d, k)`. */
  lemma RemoveNthRef(d: Document, k: ItemKind, n: nat, dropEmpty: bool)
    requires n < |Refs(d, k)|
    ensures var loc := Locate(d, k, n);
      Refs(RemoveItem(d, loc.0, loc.1, dropEmpty), k) == Refs(d, k)[..n] + Refs(d, k)[n + 1..]
  {
    var loc := Locate(d, k, n);
    var i, j := loc.0, loc.1;
    var items := d[i].items;
    var a, x, y, z, c := Refs(d[..i], k), RefsIn(items[..j], k), ItemRefs(items[j], k), RefsIn(items[j + 1..], k), Refs(d[i + 1..], k);
    RemoveItemRefs(d, i, j, dropEmpty, k);
    RefsAroundItem(d, i, j, k);
    CutMiddle(a, x, y, z, c, Refs(d, k), Refs(RemoveItem(d, i, j, dropEmpty), k), n);
  }

  /** Removing a reference of kind `k` leaves the references of every other kind as they were. */
  lemma RemoveItemOtherRefs(d: Document, i: nat, j: nat, dropEmpty: bool, other: ItemKind)
    requires i < |d| && d[i].ItemGroup? && j < |d[i].items|
    requires d[i].items[j].kind != other
    ensures Refs(RemoveItem(d, i, j, dropEmpty), other) == Refs(d, other)
  {
    var items := d[i].items;
    RemoveItemRefs(d, i, j, dropEmpty, other);
    RefsAroundItem(d, i, j, other);
    var x, z := RefsIn(items[..j], other), RefsIn(items[j + 1..], other);
    assert x + ItemRefs(items[j], other) + z == x + z;
  }

  /** Appending an item to a group adds its `Include` to its own kind and changes no other kind. */
  lemma AppendToGroupRefs(d: Document, i: nat, item: Item, k: ItemKind)
    requires i < |d| && d[i].ItemGroup?
    ensures multiset(Refs(AppendToGroup(d, i, item), k)) == multiset(Refs(d, k)) + multiset(ItemRefs(item, k))
    ensures item.kind != k ==> Refs(AppendToGroup(d, i, item), k) == Refs(d, k)
  {
    var g := ItemGroup(d[i].items + [item]);
    ReplaceElementRefs(d, i, g, k);
    RefsAround(d, i, k);
    RefsInAppend(d[i].items, [item], k);
    RefsInSingleton(item, k);
    var a, x, y, c := Refs(d[..i], k), RefsIn(d[i].items, k), ItemRefs(item, k), Refs(d[i + 1..], k);
    assert multiset(a + (x + y) + c) == multiset(a + x + c) + multiset(y);
    if item.kind != k {
      assert x + y == x;
    }
  }

  /** Refs of a document with one element inserted between two parts. */
  lemma InsertElementRefs(a: Document, e: Element, b: Document, k: ItemKind)
    ensures Refs(a + [e] + b, k) == Refs(a, k) + ElementRefs(e, k) + Refs(b, k)
  {
    var d := a + [e] + b;
    RefsAround(d, |a|, k);
    assert d[..|a|] == a && d[|a|] == e && d[|a| + 1..] == b;
  }

  /** Inserting a one-item group adds its `Include` to its own kind and changes no other kind. */
  lemma InsertGroupAfterRefs(d: Document, i: nat, item: Item, k: ItemKind)
    requires i < |d|
    ensures multiset(Refs(InsertGroupAfter(d, i, item), k)) == multiset(Refs(d, k)) + multiset(ItemRefs(item, k))
    ensures item.kind != k ==> Refs(InsertGroupAfter(d, i, item), k) == Refs(d, k)
  {
    var g := ItemGroup([item]);
    InsertElementRefs(d[..i + 1], g, d[i + 1..], k);
    RefsSplit(d, i + 1, k);
    RefsInSingleton(item, k);
    var a, y, c := Refs(d[..i + 1], k), ItemRefs(item, k), Refs(d[i + 1..], k);
    assert multiset(a + y + c) == multiset(a + c) + multiset(y);
    if item.kind != k {
      assert a + y == a;
    }
  }

  lemma RefsInSingleton(item: Item, k: ItemKind)
    ensures RefsIn([item], k) == ItemRefs(item, k)
  {
    assert [item][1..] == [];
  }

  // ---------------------------------------------------------------------------
  // The first group of references of a kind
  // ---------------------------------------------------------------------------

  /**
   * How many references of kind `k` the first element holding any of them has: the
   * references `Refs(d, k)[..FirstGroupEnd(d, k)]` are those of the group that
   * `group.Add` extends, and a new reference lands right after them.
   */
  function FirstGroupEnd(d: Document, k: ItemKind): (n: nat)
    ensures n <= |Refs(d, k)|
    ensures n == 0 <==> Refs(d, k) == []
  {
    if |d| == 0 then 0
    else if |ElementRefs(d[0], k)| > 0 then |ElementRefs(d[0], k)|
    else FirstGroupEnd(d[1..], k)
  }

  lemma {:induction false} FirstGroupEndAppend(a: Document, b: Document, k: ItemKind)
    ensures FirstGroupEnd(a + b, k) == if Refs(a, k) != [] then FirstGroupEnd(a, k) else FirstGroupEnd(b, k)
  {
    if |a| > 0 {
      assert (a + b)[0] == a[0] && (a + b)[1..] == a[1..] + b;
      FirstGroupEndAppend(a[1..], b, k);
    } else {
      assert a + b == b;
    }
  }

  /** When element i holds the first references of kind `k`, they are the first group. */
  lemma FirstGroupAt(d: Document, i: nat, k: ItemKind)
    requires i < |d| && Refs(d[..i], k) == [] && ElementRefs(d[i], k) != []
    ensures FirstGroupEnd(d, k) == |ElementRefs(d[i], k)|
    ensures Refs(d, k) == ElementRefs(d[i], k) + Refs(d[i + 1..], k)
  {
    var b := d[i..];
    assert |b| > 0 && b[0] == d[i];
    SkipNoRefs(d, i, k);
    FirstGroupHead(b, k);
    RefsAround(d, i, k);
    assert Refs(d[..i], k) + ElementRefs(d[i], k) == ElementRefs(d[i], k);
  }

  lemma FirstGroupHead(b: Document, k: ItemKind)
    requires |b| > 0 && ElementRefs(b[0], k) != []
    ensures FirstGroupEnd(b, k) == |ElementRefs(b[0], k)|
  {
  }

  /** Elements without references of kind `k` in front do not move the first group. */
  lemma SkipNoRefs(d: Document, i: nat, k: ItemKind)
    requires i <= |d| && Refs(d[..i], k) == []
    ensures FirstGroupEnd(d, k) == FirstGroupEnd(d[i..], k)
  {
    var a, b := d[..i], d[i..];
    assert d == a + b;
    FirstGroupEndAppend(a, b, k);
  }

  /** The element holding the first reference of kind `k` is the first group. */
  lemma LocateFirstGroup(d: Document, k: ItemKind)
    requires Refs(d, k) != []
    ensures var i := Locate(d, k, 0).0;
      Refs(d[..i], k) == [] && ElementRefs(d[i], k) != [] && FirstGroupEnd(d, k) == |ElementRefs(d[i], k)|
  {
    var loc := Locate(d, k, 0);
    ItemsAround(d[loc.0].items, loc.1, k);
    FirstGroupAt(d, loc.0, k);
  }

  /** Index of the last element holding a reference of kind `k`: the parent of `Last()`. */
  function LastGroup(d: Document, k: ItemKind): (r: Option<nat>)
    ensures r.Some? ==> r.value < |d| && ElementRefs(d[r.value], k) != [] && Refs(d[r.value + 1..], k) == []
    ensures r.None? <==> Refs(d, k) == []
  {
    if |d| == 0 then None
    else match LastGroup(d[1..], k)
      case Some(i) =>
        var j := i + 1;
        LastGroupLater(d, k, i, j);
        Some(j)
      case None =>
        LastGroupHead(d, k);
        if ElementRefs(d[0], k) != [] then Some(0) else None
  }

  /** The last group of the tail, one element further on, is the last group of the whole. */
  lemma LastGroupLater(d: Document, k: ItemKind, i: nat, j: nat)
    requires |d| > 0 && i < |d[1..]| && j == i + 1 && Refs(d[1..], k) != []
    requires ElementRefs(d[1..][i], k) != [] && Refs(d[1..][i + 1..], k) == []
    ensures j < |d| && ElementRefs(d[j], k) != [] && Refs(d[j + 1..], k) == [] && Refs(d, k) != []
  {
    assert d[1..][i + 1..] == d[j + 1..];
    assert Refs(d, k) == ElementRefs(d[0], k) + Refs(d[1..], k);
  }

  /** With no reference in the tail, the head holds all of them. */
  lemma LastGroupHead(d: Document, k: ItemKind)
    requires |d| > 0 && Refs(d[1..], k) == []
    ensures Refs(d, k) == ElementRefs(d[0], k) && Refs(d[0 + 1..], k) == []
  {
    assert Refs(d, k) == ElementRefs(d[0], k) + Refs(d[1..], k);
  }

  /** An element whose share of kind `k` is the same count leaves the first group's size alone. */
  lemma FirstGroupSameHead(e: Element, f: Element, t: Document, k: ItemKind)
    requires |ElementRefs(e, k)| == |ElementRefs(f, k)|
    ensures FirstGroupEnd([e] + t, k) == FirstGroupEnd([f] + t, k)
  {
    assert ([e] + t)[0] == e && ([e] + t)[1..] == t;
    assert ([f] + t)[0] == f && ([f] + t)[1..] == t;
  }

  /** An element without references of kind `k` in front does not move the first group. */
  lemma FirstGroupSkipHead(e: Element, t: Document, k: ItemKind)
    requires ElementRefs(e, k) == []
    ensures FirstGroupEnd([e] + t, k) == FirstGroupEnd(t, k)
  {
    assert ([e] + t)[0] == e && ([e] + t)[1..] == t;
  }

  lemma FirstGroupPrefixed(a: Document, x: Document, y: Document, k: ItemKind)
    requires FirstGroupEnd(x, k) == FirstGroupEnd(y, k)
    ensures FirstGroupEnd(a + x, k) == FirstGroupEnd(a + y, k)
  {
    FirstGroupEndAppend(a, x, k);
    FirstGroupEndAppend(a, y, k);
  }

  lemma FirstGroupSameTail(e: Element, t: Document, u: Document, k: ItemKind)
    requires FirstGroupEnd(t, k) == FirstGroupEnd(u, k)
    ensures FirstGroupEnd([e] + t, k) == FirstGroupEnd([e] + u, k)
  {
    assert ([e] + t)[0] == e && ([e] + t)[1..] == t;
    assert ([e] + u)[0] == e && ([e] + u)[1..] == u;
  }

  /** Removing an item of another kind leaves the first group of kind `k` as it was. */
  lemma RemoveItemFirstGroup(d: Document, i: nat, j: nat, dropEmpty: bool, k: ItemKind)
    requires i < |d| && d[i].ItemGroup? && j < |d[i].items| && d[i].items[j].kind != k
    ensures FirstGroupEnd(RemoveItem(d, i, j, dropEmpty), k) == FirstGroupEnd(d, k)
  {
    var items := d[i].items;
    var rest := items[..j] + items[j + 1..];
    var a, e, t := d[..i], d[i], d[i + 1..];
    ItemsAround(items, j, k);
    RefsInAppend(items[..j], items[j + 1..], k);
    assert d == a + ([e] + t);
    if dropEmpty && |rest| == 0 {
      FirstGroupSkipHead(e, t, k);
      FirstGroupPrefixed(a, t, [e] + t, k);
      assert RemoveItem(d, i, j, dropEmpty) == a + t;
    } else {
      FirstGroupSameHead(ItemGroup(rest), e, t, k);
      FirstGroupPrefixed(a, [ItemGroup(rest)] + t, [e] + t, k);
      assert RemoveItem(d, i, j, dropEmpty) == a + ([ItemGroup(rest)] + t);
    }
  }

  /** An entry put in after the first group, in terms of the entries before. */
  lemma InsertAfterGroup<T>(refs: seq<T>, group: seq<T>, tail: seq<T>, x: T, r: seq<T>)
    requires refs == group + tail && r == group + [x] + tail
    ensures r == refs[..|group|] + [x] + refs[|group|..]
  {
    assert refs[..|group|] == group && refs[|group|..] == tail;
  }

  /** The first group, with nothing in front of it, grown by one entry at its end. */
  lemma GrownFirstGroup<T>(s: seq<T>, before: seq<T>, group: seq<T>, grown: seq<T>, tail: seq<T>, x: T, r: seq<T>)
    requires before == [] && grown == group + [x]
    requires s == before + group + tail && r == before + grown + tail
    ensures r == s[..|group|] + [x] + s[|group|..]
  {
    assert s == group + tail && r == group + [x] + tail;
    InsertAfterGroup(s, group, tail, x, r);
  }

  /** Entries put in after the first group, once more: the groups nest. */
  lemma InsertAfterInserted<T>(refs: seq<T>, p: nat, xs: seq<T>, ys: seq<T>, mid: seq<T>, r: seq<T>)
    requires p <= |refs| && mid == refs[..p] + xs + refs[p..]
    requires r == mid[..p + |xs|] + ys + mid[p + |xs|..]
    ensures r == refs[..p] + (xs + ys) + refs[p..]
  {
    assert mid[..p + |xs|] == refs[..p] + xs;
    assert mid[p + |xs|..] == refs[p..];
  }

  // ---------------------------------------------------------------------------
  // Items of one kind, attributes and all
  // ---------------------------------------------------------------------------

  /** The items of kind `k`, in order. */
  function ItemsIn(items: seq<Item>, k: ItemKind): seq<Item>
  {
    if |items| == 0 then []
    else (if items[0].kind == k then [items[0]] else []) + ItemsIn(items[1..], k)
  }

  function ElementItems(e: Element, k: ItemKind): seq<Item>
  {
    if e.ItemGroup? then ItemsIn(e.items, k) else []
  }

  /**
   * `/Project/ItemGroup/<k>` as elements rather than `Include` values: every item of
   * kind `k`, with its attributes, in document order.
   */
  function KindItems(d: Document, k: ItemKind): seq<Item>
  {
    if |d| == 0 then [] else ElementItems(d[0], k) + KindItems(d[1..], k)
  }

  /** The `Include` attributes of a list of items, in order. */
  function Includes(items: seq<Item>): (r: seq<Option<string>>)
    ensures |r| == |items|
    ensures forall j :: 0 <= j < |items| ==> r[j] == items[j].includeAttr
  {
    if |items| == 0 then [] else [items[0].includeAttr] + Includes(items[1..])
  }

  lemma IncludesAppend(a: seq<Item>, b: seq<Item>)
    ensures Includes(a + b) == Includes(a) + Includes(b)
  {
    var l, r := Includes(a), Includes(b);
    forall j | 0 <= j < |a + b|
      ensures Includes(a + b)[j] == (l + r)[j]
    {
      if j < |a| {
        assert (a + b)[j] == a[j] && (l + r)[j] == l[j];
      } else {
        assert (a + b)[j] == b[j - |a|] && (l + r)[j] == r[j - |a|];
      }
    }
  }

  lemma {:induction false} ItemsInIncludes(items: seq<Item>, k: ItemKind)
    ensures RefsIn(items, k) == Includes(ItemsIn(items, k))
    ensures forall j :: 0 <= j < |ItemsIn(items, k)| ==> ItemsIn(items, k)[j].kind == k
  {
    if |items| > 0 {
      var head := if items[0].kind == k then [items[0]] else [];
      ItemsInIncludes(items[1..], k);
      IncludesAppend(head, ItemsIn(items[1..], k));
    }
  }

  lemma ElementItemsIncludes(e: Element, k: ItemKind)
    ensures ElementRefs(e, k) == Includes(ElementItems(e, k))
    ensures forall j :: 0 <= j < |ElementItems(e, k)| ==> ElementItems(e, k)[j].kind == k
  {
    if e.ItemGroup? {
      ItemsInIncludes(e.items, k);
    }
  }

  /** The references of kind `k` are the `Include` attributes of its items, one for one, all of kind `k`. */
  lemma {:induction false} KindItemsIncludes(d: Document, k: ItemKind)
    ensures Refs(d, k) == Includes(KindItems(d, k))
    ensures forall j :: 0 <= j < |KindItems(d, k)| ==> KindItems(d, k)[j].kind == k
  {
    if |d| > 0 {
      var head, tail := ElementItems(d[0], k), KindItems(d[1..], k);
      assert KindItems(d, k) == head + tail;
      assert Refs(d, k) == ElementRefs(d[0], k) + Refs(d[1..], k);
      KindItemsIncludes(d[1..], k);
      ElementItemsIncludes(d[0], k);
      IncludesAppend(head, tail);
      KindAppend(head, tail, k);
    }
  }

  lemma KindAppend(a: seq<Item>, b: seq<Item>, k: ItemKind)
    requires forall j :: 0 <= j < |a| ==> a[j].kind == k
    requires forall j :: 0 <= j < |b| ==> b[j].kind == k
    ensures forall j :: 0 <= j < |a + b| ==> (a + b)[j].kind == k
  {
    forall j | 0 <= j < |a + b|
      ensures (a + b)[j].kind == k
    {
      if j < |a| {
        assert (a + b)[j] == a[j];
      } else {
        assert (a + b)[j] == b[j - |a|];
      }
    }
  }

  lemma {:induction false} ItemsInAppend(a: seq<Item>, b: seq<Item>, k: ItemKind)
    ensures ItemsIn(a + b, k) == ItemsIn(a, k) + ItemsIn(b, k)
  {
    if |a| > 0 {
      assert (a + b)[1..] == a[1..] + b;
      ItemsInAppend(a[1..], b, k);
    } else {
      assert a + b == b;
    }
  }

  lemma ItemsInSingleton(item: Item, k: ItemKind)
    ensures ItemsIn([item], k) == if item.kind == k then [item] else []
  {
    assert [item][1..] == [];
  }

  lemma {:induction false} KindItemsAppend(a: Document, b: Document, k: ItemKind)
    ensures KindItems(a + b, k) == KindItems(a, k) + KindItems(b, k)
  {
    if |a| > 0 {
      assert (a + b)[1..] == a[1..] + b;
      KindItemsAppend(a[1..], b, k);
    } else {
      assert a + b == b;
    }
  }

  /** The items of `d` split around element `i`. */
  lemma {:induction false} KindItemsAround(d: Document, i: nat, k: ItemKind)
    requires i < |d|
    ensures KindItems(d, k) == KindItems(d[..i], k) + ElementItems(d[i], k) + KindItems(d[i + 1..], k)
  {
    if i == 0 {
      assert d[..0] == [];
    } else {
      KindItemsAround(d[1..], i - 1, k);
      assert d[1..][..i - 1] == d[..i][1..];
      assert d[1..][i - 1] == d[i];
      assert d[1..][i..] == d[i + 1..];
      Regroup(ElementItems(d[0], k), KindItems(d[..i][1..], k), ElementItems(d[i], k), KindItems(d[i + 1..], k));
    }
  }

  /** The items of a document with one element inserted between two parts. */
  lemma InsertElementItems(a: Document, e: Element, b: Document, k: ItemKind)
    ensures KindItems(a + [e] + b, k) == KindItems(a, k) + ElementItems(e, k) + KindItems(b, k)
  {
    var d := a + [e] + b;
    KindItemsAround(d, |a|, k);
    assert d[..|a|] == a && d[|a|] == e && d[|a| + 1..] == b;
  }

  /** A part of a document without references of kind `k` has no items of that kind. */
  lemma NoRefsNoItems(d: Document, k: ItemKind)
    requires Refs(d, k) == []
    ensures KindItems(d, k) == []
  {
    KindItemsIncludes(d, k);
  }

  /** Replacing element i by `e` changes only that element's share of the items. */
  lemma ReplaceElementItems(d: Document, i: nat, e: Element, k: ItemKind)
    requires i < |d|
    ensures KindItems(d[i := e], k) == KindItems(d[..i], k) + ElementItems(e, k) + KindItems(d[i + 1..], k)
  {
    var r := d[i := e];
    KindItemsAround(r, i, k);
    assert r[..i] == d[..i] && r[i + 1..] == d[i + 1..];
  }

  /** An item appended to a list comes last among the items of its kind. */
  lemma AppendedItems(items: seq<Item>, item: Item)
    ensures ItemsIn(items + [item], item.kind) == ItemsIn(items, item.kind) + [item]
    ensures RefsIn(items + [item], item.kind) == RefsIn(items, item.kind) + [item.includeAttr]
  {
    ItemsInAppend(items, [item], item.kind);
    ItemsInSingleton(item, item.kind);
    RefsInAppend(items, [item], item.kind);
    RefsInSingleton(item, item.kind);
  }

  /** Appending to the first group of a kind makes that group one longer. */
  lemma AppendToFirstGroupEnd(d: Document, i: nat, item: Item)
    requires i < |d| && d[i].ItemGroup?
    requires Refs(d[..i], item.kind) == [] && ElementRefs(d[i], item.kind) != []
    ensures FirstGroupEnd(AppendToGroup(d, i, item), item.kind) == FirstGroupEnd(d, item.kind) + 1
  {
    var r := AppendToGroup(d, i, item);
    AppendedItems(d[i].items, item);
    assert r[..i] == d[..i];
    FirstGroupAt(d, i, item.kind);
    FirstGroupAt(r, i, item.kind);
  }

  /**
   * `group.Add(item)` on the group holding the first reference of the item's kind: the
   * item lands right after that group's items of its kind, and the group grows by one.
   */
  lemma AppendToFirstGroupItems(d: Document, item: Item)
    requires Refs(d, item.kind) != []
    ensures var k := item.kind;
      var r := AppendToGroup(d, Locate(d, k, 0).0, item);
      var items, p := KindItems(d, k), FirstGroupEnd(d, k);
      p <= |items| && KindItems(r, k) == items[..p] + [item] + items[p..] && FirstGroupEnd(r, k) == p + 1
  {
    var k := item.kind;
    var i := Locate(d, k, 0).0;
    var g := ItemGroup(d[i].items + [item]);
    LocateFirstGroup(d, k);
    NoRefsNoItems(d[..i], k);
    ElementItemsIncludes(d[i], k);
    KindItemsAround(d, i, k);
    ReplaceElementItems(d, i, g, k);
    AppendedItems(d[i].items, item);
    GrownFirstGroup(KindItems(d, k), KindItems(d[..i], k), ElementItems(d[i], k), ElementItems(g, k),
                    KindItems(d[i + 1..], k), item, KindItems(d[i := g], k));
    AppendToFirstGroupEnd(d, i, item);
  }

  /**
   * `AddAfterSelf` of a new group holding the item, where there is no reference of its
   * kind yet: the item is the only one of its kind, and its group the first.
   */
  lemma InsertFirstGroupItems(d: Document, l: nat, item: Item)
    requires l < |d| && Refs(d, item.kind) == []
    ensures var r := InsertGroupAfter(d, l, item);
      KindItems(r, item.kind) == [item] && FirstGroupEnd(r, item.kind) == 1
  {
    var k := item.kind;
    var a, g, t := d[..l + 1], ItemGroup([item]), d[l + 1..];
    RefsSplit(d, l + 1, k);
    NoRefsNoItems(a, k);
    NoRefsNoItems(t, k);
    ItemsInSingleton(item, k);
    InsertElementItems(a, g, t, k);
    RefsInSingleton(item, k);
    FirstGroupEndAppend(a, [g] + t, k);
    FirstGroupHead([g] + t, k);
    ConcatAssoc(a, [g], t);
  }

  lemma ConcatEmptyMiddle<T>(a: seq<T>, b: seq<T>)
    ensures a + [] + b == a + b
  {
  }

  /** Taking out an item of another kind leaves a list's items of kind `k` as they were. */
  lemma ItemsWithout(items: seq<Item>, j: nat, k: ItemKind)
    requires j < |items| && items[j].kind != k
    ensures ItemsIn(items[..j] + items[j + 1..], k) == ItemsIn(items, k)
  {
    assert items == items[..j] + [items[j]] + items[j + 1..];
    ItemsInAppend(items[..j] + [items[j]], items[j + 1..], k);
    ItemsInAppend(items[..j], [items[j]], k);
    ItemsInAppend(items[..j], items[j + 1..], k);
    ItemsInSingleton(items[j], k);
  }

  /** Removing an item of another kind leaves the items of kind `k` as they were. */
  lemma RemoveItemOtherItems(d: Document, i: nat, j: nat, dropEmpty: bool, k: ItemKind)
    requires i < |d| && d[i].ItemGroup? && j < |d[i].items| && d[i].items[j].kind != k
    ensures KindItems(RemoveItem(d, i, j, dropEmpty), k) == KindItems(d, k)
  {
    var items := d[i].items;
    var rest := items[..j] + items[j + 1..];
    ItemsWithout(items, j, k);
    KindItemsAround(d, i, k);
    var before, after := KindItems(d[..i], k), KindItems(d[i + 1..], k);
    assert ElementItems(d[i], k) == ItemsIn(rest, k);
    if dropEmpty && |rest| == 0 {
      assert ItemsIn(rest, k) == [];
      KindItemsAppend(d[..i], d[i + 1..], k);
      assert RemoveItem(d, i, j, dropEmpty) == d[..i] + d[i + 1..];
      ConcatEmptyMiddle(before, after);
    } else {
      ReplaceElementItems(d, i, ItemGroup(rest), k);
      assert RemoveItem(d, i, j, dropEmpty) == d[i := ItemGroup(rest)];
    }
  }

  /** The items of kind `k` split around the item at (i, j). */
  lemma KindItemsAroundItem(d: Document, i: nat, j: nat, k: ItemKind)
    requires i < |d| && d[i].ItemGroup? && j < |d[i].items|
    ensures var items := d[i].items;
      KindItems(d, k) == KindItems(d[..i], k)
                         + (ItemsIn(items[..j], k) + ItemsIn([items[j]], k) + ItemsIn(items[j + 1..], k))
                         + KindItems(d[i + 1..], k)
  {
    var items := d[i].items;
    assert items == items[..j] + [items[j]] + items[j + 1..];
    ItemsInAppend(items[..j] + [items[j]], items[j + 1..], k);
    ItemsInAppend(items[..j], [items[j]], k);
    KindItemsAround(d, i, k);
  }

  /** What removing the item at (i, j) does to the items of any kind. */
  lemma RemoveItemItems(d: Document, i: nat, j: nat, dropEmpty: bool, k: ItemKind)
    requires i < |d| && d[i].ItemGroup? && j < |d[i].items|
    ensures var items := d[i].items;
      KindItems(RemoveItem(d, i, j, dropEmpty), k)
      == KindItems(d[..i], k) + (ItemsIn(items[..j], k) + ItemsIn(items[j + 1..], k)) + KindItems(d[i + 1..], k)
  {
    var rest := d[i].items[..j] + d[i].items[j + 1..];
    ItemsInAppend(d[i].items[..j], d[i].items[j + 1..], k);
    if dropEmpty && |rest| == 0 {
      KindItemsAppend(d[..i], d[i + 1..], k);
      assert RemoveItem(d, i, j, dropEmpty) == d[..i] + d[i + 1..];
      assert ItemsIn(rest, k) == [];
      ConcatEmptyMiddle(KindItems(d[..i], k), KindItems(d[i + 1..], k));
    } else {
      ReplaceElementItems(d, i, ItemGroup(rest), k);
      assert RemoveItem(d, i, j, dropEmpty) == d[i := ItemGroup(rest)];
    }
  }

  /** Removing the item holding the `n`-th reference of kind `k` takes exactly that item out of its kind. */
  lemma RemoveNthItem(d: Document, k: ItemKind, n: nat, dropEmpty: bool)
    requires n < |Refs(d, k)|
    ensures var loc, items := Locate(d, k, n), KindItems(d, k);
      && n < |items| && items[n] == d[loc.0].items[loc.1]
      && KindItems(RemoveItem(d, loc.0, loc.1, dropEmpty), k) == items[..n] + items[n + 1..]
  {
    var loc := Locate(d, k, n);
    var i, j := loc.0, loc.1;
    var items := d[i].items;
    var a, x, y, z, c := KindItems(d[..i], k), ItemsIn(items[..j], k), ItemsIn([items[j]], k), ItemsIn(items[j + 1..], k), KindItems(d[i + 1..], k);
    KindItemsIncludes(d[..i], k);
    ItemsInIncludes(items[..j], k);
    ItemsInSingleton(items[j], k);
    assert y == [items[j]];
    KindItemsAroundItem(d, i, j, k);
    RemoveItemItems(d, i, j, dropEmpty, k);
    CutMiddle(a, x, y, z, c, KindItems(d, k), KindItems(RemoveItem(d, i, j, dropEmpty), k), n);
    assert KindItems(d, k)[n] == y[0];
  }

  /** Appending an item to a group leaves the items of every other kind as they were. */
  lemma AppendToGroupOtherItems(d: Document, i: nat, item: Item, k: ItemKind)
    requires i < |d| && d[i].ItemGroup? && item.kind != k
    ensures KindItems(AppendToGroup(d, i, item), k) == KindItems(d, k)
  {
    KindItemsAround(d, i, k);
    ReplaceElementItems(d, i, ItemGroup(d[i].items + [item]), k);
    ItemsInAppend(d[i].items, [item], k);
    ItemsInSingleton(item, k);
    assert ItemsIn(d[i].items, k) + [] == ItemsIn(d[i].items, k);
  }

  /** Inserting a one-item group leaves the items of every other kind as they were. */
  lemma InsertGroupAfterOtherItems(d: Document, i: nat, item: Item, k: ItemKind)
    requires i < |d| && item.kind != k
    ensures KindItems(InsertGroupAfter(d, i, item), k) == KindItems(d, k)
  {
    InsertElementItems(d[..i + 1], ItemGroup([item]), d[i + 1..], k);
    KindItemsAppend(d[..i + 1], d[i + 1..], k);
    ItemsInSingleton(item, k);
    ConcatEmptyMiddle(KindItems(d[..i + 1], k), KindItems(d[i + 1..], k));
    assert d[..i + 1] + d[i + 1..] == d;
  }

  // ---------------------------------------------------------------------------
  // Item groups without children
  // ---------------------------------------------------------------------------

  /** No item group of the document is empty. */
  predicate NoEmptyItemGroups(d: Document) {
    forall i :: 0 <= i < |d| && d[i].ItemGroup? ==> |d[i].items| > 0
  }

  function ElementEmpty(e: Element): nat {
    if e.ItemGroup? && |e.items| == 0 then 1 else 0
  }

  /** Number of item groups without children. */
  function EmptyItemGroups(d: Document): nat {
    if |d| == 0 then 0 else ElementEmpty(d[0]) + EmptyItemGroups(d[1..])
  }

  lemma {:induction false} EmptyItemGroupsAppend(a: Document, b: Document)
    ensures EmptyItemGroups(a + b) == EmptyItemGroups(a) + EmptyItemGroups(b)
  {
    if |a| > 0 {
      assert (a + b)[1..] == a[1..] + b;
      EmptyItemGroupsAppend(a[1..], b);
    } else {
      assert a + b == b;
    }
  }

  lemma InsertElementEmpty(a: Document, e: Element, b: Document)
    ensures EmptyItemGroups(a + [e] + b) == EmptyItemGroups(a) + ElementEmpty(e) + EmptyItemGroups(b)
  {
    var d := a + [e] + b;
    EmptyAround(d, |a|);
    assert d[..|a|] == a && d[|a|] == e && d[|a| + 1..] == b;
  }

  lemma {:induction false} EmptyAround(d: Document, i: nat)
    requires i < |d|
    ensures EmptyItemGroups(d) == EmptyItemGroups(d[..i]) + ElementEmpty(d[i]) + EmptyItemGroups(d[i + 1..])
  {
    if i == 0 {
      assert d[..0] == [];
    } else {
      EmptyAround(d[1..], i - 1);
      assert d[1..][..i - 1] == d[..i][1..];
      assert d[1..][i - 1] == d[i];
      assert d[1..][i..] == d[i + 1..];
    }
  }

  lemma {:induction false} EmptySplit(d: Document, p: nat)
    requires p <= |d|
    ensures EmptyItemGroups(d) == EmptyItemGroups(d[..p]) + EmptyItemGroups(d[p..])
  {
    if p == 0 {
      assert d[..0] == [] && d[0..] == d;
    } else {
      EmptySplit(d[1..], p - 1);
      assert d[1..][..p - 1] == d[..p][1..];
      assert d[1..][p - 1..] == d[p..];
    }
  }

  lemma ReplaceElementEmpty(d: Document, i: nat, e: Element)
    requires i < |d|
    ensures EmptyItemGroups(d[i := e]) == EmptyItemGroups(d[..i]) + ElementEmpty(e) + EmptyItemGroups(d[i + 1..])
  {
    var r := d[i := e];
    EmptyAround(r, i);
    assert r[..i] == d[..i] && r[i + 1..] == d[i + 1..];
  }

  lemma {:induction false} NoEmptyItemGroupsCount(d: Document)
    ensures NoEmptyItemGroups(d) <==> EmptyItemGroups(d) == 0
  {
    if |d| > 0 {
      NoEmptyItemGroupsCount(d[1..]);
      if NoEmptyItemGroups(d) {
        assert NoEmptyItemGroups(d[1..]) by {
          forall i | 0 <= i < |d[1..]| && d[1..][i].ItemGroup?
            ensures |d[1..][i].items| > 0
          {
            assert d[1..][i] == d[i + 1];
          }
        }
      }
      if EmptyItemGroups(d) == 0 {
        forall i | 0 <= i < |d| && d[i].ItemGroup?
          ensures |d[i].items| > 0
        {
          if i > 0 { assert d[i] == d[1..][i - 1]; }
        }
      }
    }
  }

  /**
   * Removing an item with `dropEmpty` never leaves a new empty group; without it, the
   * group of a sole item stays behind, empty.
   */
  lemma RemoveItemEmptyGroups(d: Document, i: nat, j: nat, dropEmpty: bool)
    requires i < |d| && d[i].ItemGroup? && j < |d[i].items|
    ensures EmptyItemGroups(RemoveItem(d, i, j, dropEmpty))
         == EmptyItemGroups(d) + (if !dropEmpty && |d[i].items| == 1 then 1 else 0)
  {
    var items := d[i].items[..j] + d[i].items[j + 1..];
    EmptyAround(d, i);
    if dropEmpty && |items| == 0 {
      EmptyItemGroupsAppend(d[..i], d[i + 1..]);
    } else {
      ReplaceElementEmpty(d, i, ItemGroup(items));
    }
  }

  lemma AppendToGroupEmptyGroups(d: Document, i: nat, item: Item)
    requires i < |d| && d[i].ItemGroup?
    ensures EmptyItemGroups(AppendToGroup(d, i, item)) == EmptyItemGroups(d) - ElementEmpty(d[i])
  {
    EmptyAround(d, i);
    ReplaceElementEmpty(d, i, ItemGroup(d[i].items + [item]));
  }

  lemma InsertGroupAfterEmptyGroups(d: Document, i: nat, item: Item)
    requires i < |d|
    ensures EmptyItemGroups(InsertGroupAfter(d, i, item)) == EmptyItemGroups(d)
  {
    InsertElementEmpty(d[..i + 1], ItemGroup([item]), d[i + 1..]);
    EmptySplit(d, i + 1);
  }

  // ---------------------------------------------------------------------------
  // Property groups
  // ---------------------------------------------------------------------------

  function ElementProperties(e: Element): seq<seq<Property>> {
    if e.PropertyGroup? then [e.properties] else []
  }

  /** The property lists of the property groups, in order. */
  function PropertyLists(d: Document): seq<seq<Property>> {
    if |d| == 0 then [] else ElementProperties(d[0]) + PropertyLists(d[1..])
  }

  lemma {:induction false} PropertyListsAppend(a: Document, b: Document)
    ensures PropertyLists(a + b) == PropertyLists(a) + PropertyLists(b)
  {
    if |a| > 0 {
      assert (a + b)[1..] == a[1..] + b;
      PropertyListsAppend(a[1..], b);
    } else {
      assert a + b == b;
    }
  }

  lemma InsertElementProperties(a: Document, e: Element, b: Document)
    ensures PropertyLists(a + [e] + b) == PropertyLists(a) + ElementProperties(e) + PropertyLists(b)
  {
    var d := a + [e] + b;
    PropertiesAround(d, |a|);
    assert d[..|a|] == a && d[|a|] == e && d[|a| + 1..] == b;
  }

  lemma {:induction false} PropertiesAround(d: Document, i: nat)
    requires i < |d|
    ensures PropertyLists(d) == PropertyLists(d[..i]) + ElementProperties(d[i]) + PropertyLists(d[i + 1..])
  {
    if i == 0 {
      assert d[..0] == [];
    } else {
      PropertiesAround(d[1..], i - 1);
      assert d[1..][..i - 1] == d[..i][1..];
      assert d[1..][i - 1] == d[i];
      assert d[1..][i..] == d[i + 1..];
      Regroup(ElementProperties(d[0]), PropertyLists(d[..i][1..]), ElementProperties(d[i]), PropertyLists(d[i + 1..]));
    }
  }

  lemma {:induction false} PropertiesSplit(d: Document, p: nat)
    requires p <= |d|
    ensures PropertyLists(d) == PropertyLists(d[..p]) + PropertyLists(d[p..])
  {
    if p == 0 {
      assert d[..0] == [] && d[0..] == d;
    } else {
      PropertiesSplit(d[1..], p - 1);
      assert d[1..][..p - 1] == d[..p][1..];
      assert d[1..][p - 1..] == d[p..];
    }
  }

  lemma ReplaceElementProperties(d: Document, i: nat, e: Element)
    requires i < |d|
    ensures PropertyLists(d[i := e]) == PropertyLists(d[..i]) + ElementProperties(e) + PropertyLists(d[i + 1..])
  {
    var r := d[i := e];
    PropertiesAround(r, i);
    assert r[..i] == d[..i] && r[i + 1..] == d[i + 1..];
  }

  /** Item edits leave every property group as it was. */
  lemma RemoveItemKeepsProperties(d: Document, i: nat, j: nat, dropEmpty: bool)
    requires i < |d| && d[i].ItemGroup? && j < |d[i].items|
    ensures PropertyLists(RemoveItem(d, i, j, dropEmpty)) == PropertyLists(d)
  {
    PropertiesAround(d, i);
    var a, c := PropertyLists(d[..i]), PropertyLists(d[i + 1..]);
    assert a + [] + c == a + c;
    var items := d[i].items[..j] + d[i].items[j + 1..];
    if dropEmpty && |items| == 0 {
      PropertyListsAppend(d[..i], d[i + 1..]);
    } else {
      ReplaceElementProperties(d, i, ItemGroup(items));
    }
  }

  lemma AppendToGroupKeepsProperties(d: Document, i: nat, item: Item)
    requires i < |d| && d[i].ItemGroup?
    ensures PropertyLists(AppendToGroup(d, i, item)) == PropertyLists(d)
  {
    PropertiesAround(d, i);
    ReplaceElementProperties(d, i, ItemGroup(d[i].items + [item]));
  }

  lemma InsertGroupAfterKeepsProperties(d: Document, i: nat, item: Item)
    requires i < |d|
    ensures PropertyLists(InsertGroupAfter(d, i, item)) == PropertyLists(d)
  {
    ConcatSplit(d, i + 1);
    InsertItemGroupKeepsProperties(d[..i + 1], [item], d[i + 1..], d, InsertGroupAfter(d, i, item));
  }

  lemma ConcatSplit(d: Document, p: nat)
    requires p <= |d|
    ensures d[..p] + d[p..] == d
  {
  }

  lemma InsertItemGroupKeepsProperties(a: Document, items: seq<Item>, b: Document, d: Document, e: Document)
    requires d == a + b && e == a + [ItemGroup(items)] + b
    ensures PropertyLists(e) == PropertyLists(d)
  {
    InsertElementProperties(a, ItemGroup(items), b);
    PropertyListsAppend(a, b);
    var x, y := PropertyLists(a), PropertyLists(b);
    assert x + [] + y == x + y;
  }

  /** Values of the properties called `name` in one list, in order. */
  function ValuesIn(props: seq<Property>, name: string): seq<string> {
    if |props| == 0 then []
    else (if props[0].name == name then [props[0].value] else []) + ValuesIn(props[1..], name)
  }

  function ValuesOfLists(lists: seq<seq<Property>>, name: string): seq<string> {
    if |lists| == 0 then [] else ValuesIn(lists[0], name) + ValuesOfLists(lists[1..], name)
  }

  /** `/Project/PropertyGroup/<name>`: the values of all properties called `name`, in document order. */
  function PropertyValues(d: Document, name: string): seq<string> {
    ValuesOfLists(PropertyLists(d), name)
  }

  lemma {:induction false} ValuesInAppend(a: seq<Property>, b: seq<Property>, name: string)
    ensures ValuesIn(a + b, name) == ValuesIn(a, name) + ValuesIn(b, name)
  {
    if |a| > 0 {
      assert (a + b)[1..] == a[1..] + b;
      ValuesInAppend(a[1..], b, name);
    } else {
      assert a + b == b;
    }
  }

  /** Index of the first property group. */
  function FirstPropertyGroup(d: Document): (r: Option<nat>)
    ensures r.Some? ==> r.value < |d| && d[r.value].PropertyGroup?
    ensures r.Some? ==> forall i :: 0 <= i < r.value ==> !d[i].PropertyGroup?
    ensures r.None? ==> forall i :: 0 <= i < |d| ==> !d[i].PropertyGroup?
  {
    if |d| == 0 then None
    else if d[0].PropertyGroup? then Some(0)
    else match FirstPropertyGroup(d[1..])
      case None => None
      case Some(i) => Some(i + 1)
  }

  /** Index of the last property group. */
  function LastPropertyGroup(d: Document): (r: Option<nat>)
    ensures r.Some? ==> r.value < |d| && d[r.value].PropertyGroup?
    ensures r.Some? ==> forall i :: r.value < i < |d| ==> !d[i].PropertyGroup?
    ensures r.None? ==> forall i :: 0 <= i < |d| ==> !d[i].PropertyGroup?
  {
    if |d| == 0 then None
    else match LastPropertyGroup(d[1..])
      case Some(i) => Some(i + 1)
      case None =>
        assert forall i :: 0 < i < |d| ==> d[i] == d[1..][i - 1];
        if d[0].PropertyGroup? then Some(0) else None
  }

  /** `group.Add(<name>value</name>)` on the property group at index i. */
  function AppendProperty(d: Document, i: nat, p: Property): Document
    requires i < |d| && d[i].PropertyGroup?
  {
    d[i := PropertyGroup(d[i].properties + [p])]
  }

  /** A property list without the properties called `name`. */
  function Without(props: seq<Property>, name: string): (r: seq<Property>)
    ensures ValuesIn(r, name) == []
    ensures forall other :: other != name ==> ValuesIn(r, other) == ValuesIn(props, other)
  {
    if |props| == 0 then []
    else if props[0].name == name then Without(props[1..], name)
    else [props[0]] + Without(props[1..], name)
  }

  /**
   * The document after the `Remove()` of the single property called `name`, written as
   * the removal of every property of that name: the two coincide whenever the name
   * occurs exactly once, which is the only case in which the services remove one.
   */
  function WithoutProperty(d: Document, name: string): Document {
    if |d| == 0 then []
    else [if d[0].PropertyGroup? then PropertyGroup(Without(d[0].properties, name)) else d[0]]
         + WithoutProperty(d[1..], name)
  }

  /** The property lists as seen after appending to the first of them. */
  function AppendToFirstList(lists: seq<seq<Property>>, p: Property): seq<seq<Property>>
    requires |lists| > 0
  {
    lists[0 := lists[0] + [p]]
  }

  function WithoutInLists(lists: seq<seq<Property>>, name: string): seq<seq<Property>> {
    if |lists| == 0 then [] else [Without(lists[0], name)] + WithoutInLists(lists[1..], name)
  }

  lemma {:induction false} FirstPropertyGroupLists(d: Document)
    ensures FirstPropertyGroup(d).None? <==> PropertyLists(d) == []
    ensures FirstPropertyGroup(d).Some? ==>
      PropertyLists(d)[0] == d[FirstPropertyGroup(d).value].properties
  {
    if |d| > 0 {
      FirstPropertyGroupLists(d[1..]);
    }
  }

  /** Appending to the first property group appends to the first property list. */
  lemma AppendToFirstGroupLists(d: Document, p: Property)
    requires FirstPropertyGroup(d).Some?
    ensures PropertyLists(d) != []
    ensures PropertyLists(AppendProperty(d, FirstPropertyGroup(d).value, p)) == AppendToFirstList(PropertyLists(d), p)
  {
    var f := FirstPropertyGroup(d).value;
    FirstPropertyGroupLists(d);
    PropertiesAround(d, f);
    ReplaceElementProperties(d, f, PropertyGroup(d[f].properties + [p]));
    NoPropertiesBefore(d, f);
  }

  lemma {:induction false} NoPropertiesBefore(d: Document, f: nat)
    requires f <= |d|
    requires forall i :: 0 <= i < f ==> !d[i].PropertyGroup?
    ensures PropertyLists(d[..f]) == []
  {
    if f > 0 {
      assert d[..f][1..] == d[1..][..f - 1];
      NoPropertiesBefore(d[1..], f - 1);
    }
  }

  lemma {:induction false} WithoutPropertyLists(d: Document, name: string)
    ensures PropertyLists(WithoutProperty(d, name)) == WithoutInLists(PropertyLists(d), name)
  {
    if |d| > 0 {
      var r := WithoutProperty(d, name);
      WithoutPropertyLists(d[1..], name);
      assert r[1..] == WithoutProperty(d[1..], name);
      if d[0].PropertyGroup? {
        var rest := PropertyLists(d[1..]);
        var lists := [d[0].properties] + rest;
        assert PropertyLists(d) == lists;
        assert lists[0] == d[0].properties && lists[1..] == rest;
        assert WithoutInLists(lists, name) == [Without(d[0].properties, name)] + WithoutInLists(rest, name);
        assert r[0] == PropertyGroup(Without(d[0].properties, name));
        assert PropertyLists(r) == [Without(d[0].properties, name)] + PropertyLists(r[1..]);
      } else {
        assert r[0] == d[0];
        assert PropertyLists(r) == PropertyLists(r[1..]);
        assert PropertyLists(d) == PropertyLists(d[1..]);
      }
    }
  }

  /** Property removal never touches item groups. */
  lemma {:induction false} WithoutPropertyKeepsItems(d: Document, name: string, k: ItemKind)
    ensures Refs(WithoutProperty(d, name), k) == Refs(d, k)
    ensures EmptyItemGroups(WithoutProperty(d, name)) == EmptyItemGroups(d)
  {
    if |d| > 0 {
      var r := WithoutProperty(d, name);
      WithoutPropertyKeepsItems(d[1..], name, k);
      assert r[1..] == WithoutProperty(d[1..], name);
    }
  }

  /** Property removal leaves every item where it was, so every first group too. */
  lemma {:induction false} WithoutPropertyKeepsKindItems(d: Document, name: string, k: ItemKind)
    ensures KindItems(WithoutProperty(d, name), k) == KindItems(d, k)
    ensures FirstGroupEnd(WithoutProperty(d, name), k) == FirstGroupEnd(d, k)
  {
    if |d| > 0 {
      var r := WithoutProperty(d, name);
      WithoutPropertyKeepsKindItems(d[1..], name, k);
      assert r[1..] == WithoutProperty(d[1..], name);
    }
  }

  lemma {:induction false} ValuesOfListsAppend(a: seq<seq<Property>>, b: seq<seq<Property>>, name: string)
    ensures ValuesOfLists(a + b, name) == ValuesOfLists(a, name) + ValuesOfLists(b, name)
  {
    if |a| > 0 {
      assert (a + b)[1..] == a[1..] + b;
      ValuesOfListsAppend(a[1..], b, name);
    } else {
      assert a + b == b;
    }
  }

  /** After `WithoutProperty`, no property of that name is left and every other name keeps its values. */
  lemma {:induction false} WithoutPropertyValues(d: Document, name: string, other: string)
    ensures PropertyValues(WithoutProperty(d, name), name) == []
    ensures other != name ==> PropertyValues(WithoutProperty(d, name), other) == PropertyValues(d, other)
  {
    WithoutPropertyLists(d, name);
    WithoutInListsValues(PropertyLists(d), name, other);
  }

  lemma {:induction false} WithoutInListsValues(lists: seq<seq<Property>>, name: string, other: string)
    ensures ValuesOfLists(WithoutInLists(lists, name), name) == []
    ensures other != name ==> ValuesOfLists(WithoutInLists(lists, name), other) == ValuesOfLists(lists, other)
  {
    if |lists| > 0 {
      WithoutInListsValues(lists[1..], name, other);
      var w := WithoutInLists(lists, name);
      assert w[0] == Without(lists[0], name) && w[1..] == WithoutInLists(lists[1..], name);
    }
  }

  /**
   * `First().Add(property)`: the property joins the end of the first property list, its
   * value comes right after the values its name has in that list, and every other name
   * keeps its values exactly.
   */
  lemma AppendPropertyValues(d: Document, p: Property, name: string)
    requires FirstPropertyGroup(d).Some?
    ensures var r, lists := AppendProperty(d, FirstPropertyGroup(d).value, p), PropertyLists(d);
      && lists != []
      && PropertyLists(r) == AppendToFirstList(lists, p)
      && multiset(PropertyValues(r, name)) == multiset(PropertyValues(d, name)) + multiset(if p.name == name then [p.value] else [])
      && (p.name != name ==> PropertyValues(r, name) == PropertyValues(d, name))
      && (p.name == name ==> PropertyValues(r, name) == ValuesIn(lists[0], name) + [p.value] + ValuesOfLists(lists[1..], name))
  {
    AppendToFirstGroupLists(d, p);
    AppendedListValues(d, AppendProperty(d, FirstPropertyGroup(d).value, p), p, name);
  }

  /** The values of a document whose property lists are those of `d` with `p` appended to the first. */
  lemma AppendedListValues(d: Document, r: Document, p: Property, name: string)
    requires PropertyLists(d) != [] && PropertyLists(r) == AppendToFirstList(PropertyLists(d), p)
    ensures var lists := PropertyLists(d);
      && multiset(PropertyValues(r, name)) == multiset(PropertyValues(d, name)) + multiset(if p.name == name then [p.value] else [])
      && (p.name != name ==> PropertyValues(r, name) == PropertyValues(d, name))
      && (p.name == name ==> PropertyValues(r, name) == ValuesIn(lists[0], name) + [p.value] + ValuesOfLists(lists[1..], name))
  {
    var lists := PropertyLists(d);
    var v, y, w := ValuesIn(lists[0], name), (if p.name == name then [p.value] else []), ValuesOfLists(lists[1..], name);
    assert ValuesOfLists(AppendToFirstList(lists, p), name) == v + y + w && ValuesOfLists(lists, name) == v + w by {
      AppendToFirstListValues(lists, p, name);
    }
    InsertedValues(PropertyValues(d, name), PropertyValues(r, name), v, y, w);
  }

  /** A sequence with `y` inserted between `v` and `w`, against the one without. */
  lemma InsertedValues<T>(before: seq<T>, after: seq<T>, v: seq<T>, y: seq<T>, w: seq<T>)
    requires before == v + w && after == v + y + w
    ensures multiset(after) == multiset(before) + multiset(y)
    ensures y == [] ==> after == before
  {
    assert y == [] ==> v + y == v;
  }

  /** Appending a property to the first list puts its value after that list's values of its name. */
  lemma AppendToFirstListValues(lists: seq<seq<Property>>, p: Property, name: string)
    requires |lists| > 0
    ensures var v, y, w := ValuesIn(lists[0], name), (if p.name == name then [p.value] else []), ValuesOfLists(lists[1..], name);
      && ValuesOfLists(lists, name) == v + w
      && ValuesOfLists(AppendToFirstList(lists, p), name) == v + y + w
      && multiset(ValuesOfLists(AppendToFirstList(lists, p), name)) == multiset(ValuesOfLists(lists, name)) + multiset(y)
  {
    var appended := AppendToFirstList(lists, p);
    assert appended == [lists[0] + [p]] + lists[1..];
    assert lists == [lists[0]] + lists[1..];
    ValuesOfListsAppend([lists[0] + [p]], lists[1..], name);
    ValuesOfListsAppend([lists[0]], lists[1..], name);
    assert [lists[0] + [p]][1..] == [] && [lists[0]][1..] == [];
    ValuesInAppend(lists[0], [p], name);
    var v, w := ValuesIn(lists[0], name), ValuesOfLists(lists[1..], name);
    var y := if p.name == name then [p.value] else [];
    assert ValuesIn([p], name) == y;
    assert multiset(v + y + w) == multiset(v + w) + multiset(y);
  }

  /** Property edits never touch item groups, so no reference of any kind changes. */
  lemma AppendPropertyKeepsItems(d: Document, i: nat, p: Property, k: ItemKind)
    requires i < |d| && d[i].PropertyGroup?
    ensures Refs(AppendProperty(d, i, p), k) == Refs(d, k)
    ensures EmptyItemGroups(AppendProperty(d, i, p)) == EmptyItemGroups(d)
  {
    RefsAround(d, i, k);
    ReplaceElementRefs(d, i, PropertyGroup(d[i].properties + [p]), k);
    EmptyAround(d, i);
    ReplaceElementEmpty(d, i, PropertyGroup(d[i].properties + [p]));
  }

  /** Nor does any item of any kind move. */
  lemma AppendPropertyKeepsKindItems(d: Document, i: nat, p: Property, k: ItemKind)
    requires i < |d| && d[i].PropertyGroup?
    ensures KindItems(AppendProperty(d, i, p), k) == KindItems(d, k)
  {
    KindItemsAround(d, i, k);
    ReplaceElementItems(d, i, PropertyGroup(d[i].properties + [p]), k);
  }

  // ---------------------------------------------------------------------------
  // The document being edited in place
  // ---------------------------------------------------------------------------

  /** An `XDocument` loaded from a project file and edited in place by the services. */
  class XmlProject {
    var root: Document

    constructor(d: Document)
      ensures root == d
    {
      root := d;
    }

    /** `includeAttr.Value = v` on the item at (i, j). */
    method SetInclude(i: nat, j: nat, v: string)
      requires i < |root| && root[i].ItemGroup? && j < |root[i].items|
      modifies this
      ensures root == old(root[i := ItemGroup(root[i].items[j := root[i].items[j].(includeAttr := Some(v))])])
    {
      var item := root[i].items[j];
      root := root[i := ItemGroup(root[i].items[j := item.(includeAttr := Some(v))])];
    }

    /** `item.Remove()`, followed, when `dropEmpty`, by the removal of an emptied parent. */
    method RemoveItemAt(i: nat, j: nat, dropEmpty: bool)
      requires i < |root| && root[i].ItemGroup? && j < |root[i].items|
      modifies this
      ensures root == RemoveItem(old(root), i, j, dropEmpty)
    {
      root := RemoveItem(root, i, j, dropEmpty);
    }

    /** `group.Add(item)`. */
    method AddToGroup(i: nat, item: Item)
      requires i < |root| && root[i].ItemGroup?
      modifies this
      ensures root == AppendToGroup(old(root), i, item)
    {
      root := AppendToGroup(root, i, item);
    }

    /** `element.AddAfterSelf(<ItemGroup>item</ItemGroup>)`. */
    method AddGroupAfter(i: nat, item: Item)
      requires i < |root|
      modifies this
      ensures root == InsertGroupAfter(old(root), i, item)
    {
      root := InsertGroupAfter(root, i, item);
    }

    /** `propertyGroup.Add(<name>value</name>)`. */
    method AddProperty(i: nat, p: Property)
      requires i < |root| && root[i].PropertyGroup?
      modifies this
      ensures root == AppendProperty(old(root), i, p)
    {
      root := AppendProperty(root, i, p);
    }

    /** `property.Remove()` on the only property called `name`. */
    method RemoveSingleProperty(name: string)
      requires |PropertyValues(root, name)| == 1
      modifies this
      ensures root == WithoutProperty(old(root), name)
    {
      root := WithoutProperty(root, name);
    }
  }

  /**
   * The project files on disk, by full path, as documents: `File.OpenRead` followed by
   * `XDocument.Load` reads an entry, `File.Create` followed by `WriteTo` replaces one.
   */
  class ProjectFiles {
    var files: map<string, Document>

    constructor(initial: map<string, Document>)
      ensures files == initial
    {
      files := initial;
    }

    method Load(path: string) returns (r: Result<Document, Error>)
      ensures path in files ==> r == Ok(files[path])
      ensures path !in files ==> r == Err(FileNotFound(path))
    {
      if path in files {
        r := Ok(files[path]);
      } else {
        r := Err(FileNotFound(path));
      }
    }

    method Save(path: string, d: Document)
      modifies this
      ensures files == old(files)[path := d]
    {
      files := files[path := d];
    }
  }
}
