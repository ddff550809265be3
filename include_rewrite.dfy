/**
 * Rewriting the `Include` attribute of every item of one kind, in document order, as
 * both services do to project references: the generate service maps each to its
 * shadow path, the push service maps each back.  An item of that kind without an
 * `Include` stops the walk with a null reference.
 */
module IncludeRewrite {
  import opened Wrappers
  import opened Errors
  import opened ProjectDocument

  /** The references after rewriting every present `Include` with `f`. */
  function Rewritten(refs: seq<Option<string>>, f: string -> string): (r: seq<Option<string>>)
    ensures |r| == |refs|
  {
    if |refs| == 0 then []
    else [if refs[0].Some? then Some(f(refs[0].value)) else None] + Rewritten(refs[1..], f)
  }

  lemma {:induction false} RewrittenAppend(a: seq<Option<string>>, b: seq<Option<string>>, f: string -> string)
    ensures Rewritten(a + b, f) == Rewritten(a, f) + Rewritten(b, f)
  {
    if |a| == 0 {
      assert a + b == b;
    } else {
      assert (a + b)[1..] == a[1..] + b;
      RewrittenAppend(a[1..], b, f);
    }
  }

  /** A prefix already handled, in front of the outcome for the rest. */
  function Prefixed<T>(done: seq<T>, rest: Result<seq<T>, Error>): Result<seq<T>, Error> {
    if rest.Ok? then Ok(done + rest.value) else rest
  }

  function RewriteItem(item: Item, k: ItemKind, f: string -> string): Result<Item, Error> {
    if item.kind != k then Ok(item)
    else match item.includeAttr
      case None => Err(NullReference("Include"))
      case Some(v) => Ok(item.(includeAttr := Some(f(v))))
  }

  function RewriteItems(items: seq<Item>, k: ItemKind, f: string -> string): Result<seq<Item>, Error> {
    if |items| == 0 then Ok([])
    else
      var first :- RewriteItem(items[0], k, f);
      Prefixed([first], RewriteItems(items[1..], k, f))
  }

  function RewriteElement(e: Element, k: ItemKind, f: string -> string): Result<Element, Error> {
    if e.ItemGroup? then
      var items :- RewriteItems(e.items, k, f);
      Ok(ItemGroup(items))
    else Ok(e)
  }

  /** The document with every `Include` of kind `k` rewritten by `f`, or the first failure. */
  function RewriteIncludes(d: Document, k: ItemKind, f: string -> string): Result<Document, Error> {
    if |d| == 0 then Ok([])
    else
      var first :- RewriteElement(d[0], k, f);
      Prefixed([first], RewriteIncludes(d[1..], k, f))
  }

  // ---------------------------------------------------------------------------
  // What a rewrite does to the document
  // ---------------------------------------------------------------------------

  /**
   * Rewriting the items of a group fails exactly when one of kind `k` has no `Include`;
   * otherwise the references of kind `k` are rewritten one for one and those of any
   * other kind are untouched.
   */
  lemma {:induction false} RewriteItemsFacts(items: seq<Item>, k: ItemKind, f: string -> string, other: ItemKind)
    ensures RewriteItems(items, k, f).Ok? <==> None !in RefsIn(items, k)
    ensures RewriteItems(items, k, f).Ok? ==>
      var r := RewriteItems(items, k, f).value;
      |r| == |items|
      && RefsIn(r, k) == Rewritten(RefsIn(items, k), f)
      && (other != k ==> RefsIn(r, other) == RefsIn(items, other))
  {
    if |items| > 0 {
      var head, tail := RewriteItem(items[0], k, f), RewriteItems(items[1..], k, f);
      RewriteItemsFacts(items[1..], k, f, other);
      RewriteItemFacts(items[0], k, f, other);
      assert items == [items[0]] + items[1..];
      RefsInPrepend(items[0], items[1..], k);
      RefsInPrepend(items[0], items[1..], other);
      NoneInConcat(ItemRefs(items[0], k), RefsIn(items[1..], k));
      if head.Ok? && tail.Ok? {
        assert RewriteItems(items, k, f) == Ok([head.value] + tail.value);
        RefsInPrepend(head.value, tail.value, k);
        RefsInPrepend(head.value, tail.value, other);
        RewrittenAppend(ItemRefs(items[0], k), RefsIn(items[1..], k), f);
      }
    }
  }

  /** One item: it fails exactly when it is of kind `k` without an `Include`, and only that kind changes. */
  lemma RewriteItemFacts(item: Item, k: ItemKind, f: string -> string, other: ItemKind)
    ensures RewriteItem(item, k, f).Ok? <==> None !in ItemRefs(item, k)
    ensures RewriteItem(item, k, f).Ok? ==>
      var r := RewriteItem(item, k, f).value;
      ItemRefs(r, k) == Rewritten(ItemRefs(item, k), f)
      && (other != k ==> ItemRefs(r, other) == ItemRefs(item, other))
  {
    if item.kind == k && item.includeAttr.Some? {
      assert Rewritten([item.includeAttr], f) == [Some(f(item.includeAttr.value))] + Rewritten([], f);
    }
  }

  lemma RefsInPrepend(item: Item, items: seq<Item>, k: ItemKind)
    ensures RefsIn([item] + items, k) == ItemRefs(item, k) + RefsIn(items, k)
  {
    assert ([item] + items)[1..] == items;
  }

  lemma NoneInConcat(a: seq<Option<string>>, b: seq<Option<string>>)
    ensures None !in a + b <==> None !in a && None !in b
  {
  }

  lemma RewriteElementFacts(e: Element, k: ItemKind, f: string -> string, other: ItemKind)
    ensures RewriteElement(e, k, f).Ok? <==> None !in ElementRefs(e, k)
    ensures RewriteElement(e, k, f).Ok? ==>
      var r := RewriteElement(e, k, f).value;
      ElementRefs(r, k) == Rewritten(ElementRefs(e, k), f)
      && (other != k ==> ElementRefs(r, other) == ElementRefs(e, other))
      && ElementProperties(r) == ElementProperties(e)
      && ElementEmpty(r) == ElementEmpty(e)
  {
    if e.ItemGroup? {
      RewriteItemsFacts(e.items, k, f, other);
    }
  }

  /**
   * The rewrite of a whole document: it fails exactly when a reference of kind `k` has no
   * `Include`; on success those references are rewritten in order, every other kind of
   * reference, every property group and every empty item group stays as it was.
   */
  lemma {:induction false} RewriteIncludesFacts(d: Document, k: ItemKind, f: string -> string, other: ItemKind)
    ensures RewriteIncludes(d, k, f).Ok? <==> None !in Refs(d, k)
    ensures RewriteIncludes(d, k, f).Ok? ==>
      var r := RewriteIncludes(d, k, f).value;
      Refs(r, k) == Rewritten(Refs(d, k), f)
      && (other != k ==> Refs(r, other) == Refs(d, other))
      && PropertyLists(r) == PropertyLists(d)
      && EmptyItemGroups(r) == EmptyItemGroups(d)
  {
    if |d| > 0 {
      RewriteIncludesFacts(d[1..], k, f, other);
      RewriteElementFacts(d[0], k, f, other);
      var head := RewriteElement(d[0], k, f);
      if head.Ok? && RewriteIncludes(d[1..], k, f).Ok? {
        var rest := RewriteIncludes(d[1..], k, f).value;
        var r := RewriteIncludes(d, k, f).value;
        assert r == [head.value] + rest;
        assert r[0] == head.value && r[1..] == rest;
        RewrittenAppend(ElementRefs(d[0], k), Refs(d[1..], k), f);
      }
    }
  }

  /** A rewrite keeps every group's count of references, so the first group stays the same size. */
  lemma {:induction false} RewriteKeepsFirstGroup(d: Document, k: ItemKind, f: string -> string, other: ItemKind)
    requires RewriteIncludes(d, k, f).Ok?
    ensures FirstGroupEnd(RewriteIncludes(d, k, f).value, other) == FirstGroupEnd(d, other)
  {
    if |d| > 0 {
      var first := RewriteElement(d[0], k, f).value;
      var rest := RewriteIncludes(d[1..], k, f).value;
      RewriteElementFacts(d[0], k, f, other);
      RewriteKeepsFirstGroup(d[1..], k, f, other);
      FirstGroupSameHead(first, d[0], rest, other);
      FirstGroupSameTail(d[0], rest, d[1..], other);
      assert d == [d[0]] + d[1..];
    }
  }

  /** A rewrite of kind `k` leaves the items of another kind as they were, attributes and all. */
  lemma {:induction false} RewriteKeepsItems(d: Document, k: ItemKind, f: string -> string, other: ItemKind)
    requires other != k && RewriteIncludes(d, k, f).Ok?
    ensures KindItems(RewriteIncludes(d, k, f).value, other) == KindItems(d, other)
  {
    if |d| > 0 {
      var first := RewriteElement(d[0], k, f).value;
      var rest := RewriteIncludes(d[1..], k, f).value;
      var r := RewriteIncludes(d, k, f).value;
      RewriteKeepsItems(d[1..], k, f, other);
      if d[0].ItemGroup? {
        RewriteItemsKeepsItems(d[0].items, k, f, other);
      }
      assert r == [first] + rest;
      assert r[0] == first && r[1..] == rest;
    }
  }

  lemma {:induction false} RewriteItemsKeepsItems(items: seq<Item>, k: ItemKind, f: string -> string, other: ItemKind)
    requires other != k && RewriteItems(items, k, f).Ok?
    ensures ItemsIn(RewriteItems(items, k, f).value, other) == ItemsIn(items, other)
  {
    if |items| > 0 {
      var head := RewriteItem(items[0], k, f).value;
      var tail := RewriteItems(items[1..], k, f).value;
      var r := RewriteItems(items, k, f).value;
      RewriteItemsKeepsItems(items[1..], k, f, other);
      assert r == [head] + tail;
      assert r[0] == head && r[1..] == tail;
    }
  }

  // ---------------------------------------------------------------------------
  // The walk over the document, in place
  // ---------------------------------------------------------------------------

  lemma PrefixedEmpty<T>(rest: Result<seq<T>, Error>)
    ensures Prefixed([], rest) == rest
  {
    if rest.Ok? {
      assert [] + rest.value == rest.value;
    }
  }

  lemma PrefixedStep<T>(done: seq<T>, x: T, rest: Result<seq<T>, Error>)
    ensures Prefixed(done, Prefixed([x], rest)) == Prefixed(done + [x], rest)
  {
    if rest.Ok? {
      assert done + ([x] + rest.value) == done + [x] + rest.value;
    }
  }

  /** One element of the walk done: the invariant moves past it. */
  lemma RewriteAllStep(spec: Result<Document, Error>, start: Document, before: Document, after: Document,
                       i: nat, k: ItemKind, f: string -> string)
    requires i < |before| && |before| == |start| && before[i..] == start[i..]
    requires spec == Prefixed(before[..i], RewriteIncludes(start[i..], k, f))
    requires RewriteElement(before[i], k, f).Ok? && after == before[i := RewriteElement(before[i], k, f).value]
    ensures |after| == |start| && after[i + 1..] == start[i + 1..]
    ensures spec == Prefixed(after[..i + 1], RewriteIncludes(start[i + 1..], k, f))
  {
    var rest := start[i..];
    assert rest[0] == before[i] && rest[1..] == start[i + 1..];
    assert after[..i] == before[..i];
    PrefixedStep(before[..i], after[i], RewriteIncludes(rest[1..], k, f));
    assert after[..i + 1] == before[..i] + [after[i]];
  }

  /** The walk stops at an element that cannot be rewritten, with its error. */
  lemma RewriteAllStop(spec: Result<Document, Error>, start: Document, before: Document, i: nat, k: ItemKind, f: string -> string)
    requires i < |before| && |before| == |start| && before[i..] == start[i..]
    requires spec == Prefixed(before[..i], RewriteIncludes(start[i..], k, f))
    requires RewriteElement(before[i], k, f).Err?
    ensures spec == Err(RewriteElement(before[i], k, f).error)
  {
    var rest := start[i..];
    assert rest[0] == before[i];
  }

  /** The walk over a group stops at an item that cannot be rewritten, with its error. */
  lemma RewriteItemsStop(spec: Result<seq<Item>, Error>, start: seq<Item>, before: seq<Item>, j: nat, k: ItemKind, f: string -> string)
    requires j < |before| && |before| == |start| && before[j..] == start[j..]
    requires spec == Prefixed(before[..j], RewriteItems(start[j..], k, f))
    requires RewriteItem(before[j], k, f).Err?
    ensures spec == Err(RewriteItem(before[j], k, f).error)
  {
    var rest := start[j..];
    assert rest[0] == before[j];
  }

  /** One item of the group done: the invariant moves past it. */
  lemma RewriteGroupStep(spec: Result<seq<Item>, Error>, start: seq<Item>, before: seq<Item>, after: seq<Item>,
                         j: nat, k: ItemKind, f: string -> string)
    requires j < |before| && |before| == |start| && before[j..] == start[j..]
    requires spec == Prefixed(before[..j], RewriteItems(start[j..], k, f))
    requires RewriteItem(before[j], k, f).Ok? && after == before[j := RewriteItem(before[j], k, f).value]
    ensures |after| == |start| && after[j + 1..] == start[j + 1..]
    ensures spec == Prefixed(after[..j + 1], RewriteItems(start[j + 1..], k, f))
  {
    var rest := start[j..];
    assert rest[0] == before[j] && rest[1..] == start[j + 1..];
    assert after[..j] == before[..j];
    PrefixedStep(before[..j], after[j], RewriteItems(rest[1..], k, f));
    assert after[..j + 1] == before[..j] + [after[j]];
  }

  /**
   * `foreach (var reference in ...) reference.Attribute("Include").Value = f(...)` over the
   * items of kind `k`, visiting the document in order.  On success the document is the
   * specified rewrite; on failure the walk stops at the first item without `Include`.
   */
  method RewriteAll(doc: XmlProject, k: ItemKind, f: string -> string) returns (o: Outcome<Error>)
    modifies doc
    ensures o.Pass? <==> RewriteIncludes(old(doc.root), k, f).Ok?
    ensures o.Pass? ==> doc.root == RewriteIncludes(old(doc.root), k, f).value
    ensures o.Fail? ==> o.error == RewriteIncludes(old(doc.root), k, f).error
  {
    var i := 0;
    assert doc.root[..0] == [] && doc.root[0..] == doc.root;
    PrefixedEmpty(RewriteIncludes(doc.root, k, f));
    while i < |doc.root|
      invariant i <= |doc.root| == |old(doc.root)|
      invariant doc.root[i..] == old(doc.root)[i..]
      invariant RewriteIncludes(old(doc.root), k, f) == Prefixed(doc.root[..i], RewriteIncludes(old(doc.root)[i..], k, f))
    {
      ghost var before := doc.root;
      var e := doc.root[i];
      if e.ItemGroup? {
        var outcome := RewriteGroup(doc, i, k, f);
        if outcome.Fail? {
          RewriteAllStop(RewriteIncludes(old(doc.root), k, f), old(doc.root), before, i, k, f);
          return outcome;
        }
      }
      RewriteAllStep(RewriteIncludes(old(doc.root), k, f), old(doc.root), before, doc.root, i, k, f);
      i := i + 1;
    }
    assert doc.root[..i] == doc.root && old(doc.root)[i..] == [];
    assert doc.root + [] == doc.root;
    return Pass;
  }

  /** The inner walk over the items of the group at index i. */
  method RewriteGroup(doc: XmlProject, i: nat, k: ItemKind, f: string -> string) returns (o: Outcome<Error>)
    requires i < |doc.root| && doc.root[i].ItemGroup?
    modifies doc
    ensures o.Pass? <==> RewriteItems(old(doc.root[i].items), k, f).Ok?
    ensures o.Fail? ==> o.error == RewriteItems(old(doc.root[i].items), k, f).error
    ensures o.Pass? ==> doc.root == old(doc.root)[i := ItemGroup(RewriteItems(old(doc.root[i].items), k, f).value)]
  {
    ghost var start := doc.root[i].items;
    ghost var spec := RewriteItems(start, k, f);
    ghost var items := start;
    var n := |doc.root[i].items|;
    var j := 0;
    assert items[..0] == [] && items[0..] == items;
    PrefixedEmpty(spec);
    while j < n
      invariant doc.root == old(doc.root)[i := ItemGroup(items)]
      invariant j <= |items| == |start| == n
      invariant items[j..] == start[j..]
      invariant spec == Prefixed(items[..j], RewriteItems(start[j..], k, f))
    {
      var item := doc.root[i].items[j];
      if item.kind == k {
        if item.includeAttr.None? {
          RewriteItemsStop(spec, start, items, j, k, f);
          return Fail(NullReference("Include"));
        }
        doc.SetInclude(i, j, f(item.includeAttr.value));
      }
      RewriteGroupStep(spec, start, items, doc.root[i].items, j, k, f);
      items := doc.root[i].items;
      j := j + 1;
    }
    assert items[..j] == items && start[j..] == [];
    assert items + [] == items;
    return Pass;
  }
}
