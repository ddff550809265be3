/**
 * Pushing a shadow back onto its project.  The shadow document is loaded, the pinned
 * `AssemblyName` and `RootNamespace` are dropped when they still hold the project
 * name, every project reference to the shadow of a project that builds a workspace
 * package becomes one package reference per package, the remaining project references
 * are pointed back from shadows to projects, and the result overwrites the project file.
 */
module ShadowPush {
  import opened Wrappers
  import opened Errors
  import opened Paths
  import opened ShadowPaths
  import opened Models
  import opened ProjectDocument
  import opened PackageRegistry
  import opened IncludeRewrite
  import opened ShadowGenerate

  // ---------------------------------------------------------------------------
  // RevertAssemblyName and RevertRootNamespace
  // ---------------------------------------------------------------------------

  /**
   * `RevertAssemblyName` / `RevertRootNamespace`: `Single()` over the properties called
   * `name` throws unless there is exactly one; that one is removed when its value is the
   * project name and kept otherwise.
   */
  function RevertProperty(d: Document, name: string, projectName: string): Result<Document, Error> {
    var values := PropertyValues(d, name);
    if |values| == 0 then Err(MissingElement(name))
    else if |values| > 1 then Err(MultipleElements(name))
    else if values[0] == projectName then Ok(WithoutProperty(d, name))
    else Ok(d)
  }

  /**
   * Reverting a property fails exactly when it does not occur exactly once.  On success
   * it is gone if it held the project name and kept otherwise, every other property and
   * every item is untouched, and the property lists lose at most that one property.
   */
  lemma RevertPropertyFacts(d: Document, name: string, projectName: string, other: string, k: ItemKind)
    ensures RevertProperty(d, name, projectName).Err? <==> |PropertyValues(d, name)| != 1
    ensures RevertProperty(d, name, projectName).Err? ==>
      RevertProperty(d, name, projectName).error
      == (if PropertyValues(d, name) == [] then MissingElement(name) else MultipleElements(name))
    ensures RevertProperty(d, name, projectName).Ok? ==>
      var r := RevertProperty(d, name, projectName).value;
      var removed := PropertyValues(d, name) == [projectName];
      && PropertyValues(r, name) == (if removed then [] else PropertyValues(d, name))
      && (other != name ==> PropertyValues(r, other) == PropertyValues(d, other))
      && PropertyLists(r) == (if removed then WithoutInLists(PropertyLists(d), name) else PropertyLists(d))
      && Refs(r, k) == Refs(d, k)
      && EmptyItemGroups(r) == EmptyItemGroups(d)
  {
    var values := PropertyValues(d, name);
    if |values| == 1 && values[0] == projectName {
      assert values == [projectName];
      WithoutPropertyValues(d, name, other);
      WithoutPropertyLists(d, name);
      WithoutPropertyKeepsItems(d, name, k);
    }
  }

  // ---------------------------------------------------------------------------
  // AddPackageReference
  // ---------------------------------------------------------------------------

  /** `<PackageReference Include="id" Version="version" />`; an unset version prints as empty. */
  function PackageRef(decl: PackageDeclaration): Item {
    Item(PackageReference, Some(decl.id), Some(decl.version.GetOr("")))
  }

  /** A package reference can be placed: next to another one, after a project reference's group, or after a property group. */
  predicate HasPackageAnchor(d: Document) {
    |Refs(d, PackageReference)| > 0 || |Refs(d, ProjectReference)| > 0 || PropertyLists(d) != []
  }

  /**
   * `AddPackageReference`: into the group of the first package reference; failing that,
   * into a new item group right after the group of the last project reference; failing
   * that, right after the last property group; failing that, `Last()` throws.
   */
  function AddPackageReference(d: Document, item: Item): Result<Document, Error> {
    if |Refs(d, PackageReference)| > 0 then
      var loc := Locate(d, PackageReference, 0);
      Ok(AppendToGroup(d, loc.0, item))
    else if LastGroup(d, ProjectReference).Some? then
      Ok(InsertGroupAfter(d, LastGroup(d, ProjectReference).value, item))
    else match LastPropertyGroup(d)
      case Some(l) => Ok(InsertGroupAfter(d, l, item))
      case None => Err(MissingElement(PropertyGroupElement))
  }

  /**
   * Adding a package reference fails exactly when there is no anchor for it; otherwise
   * its `Include` joins the references of its kind and nothing else changes.
   * `AddPackageReferenceFacts` adds where it goes.
   */
  lemma AddPackageReferenceInventory(d: Document, item: Item, k: ItemKind)
    ensures AddPackageReference(d, item).Err? <==> !HasPackageAnchor(d)
    ensures AddPackageReference(d, item).Err? ==> AddPackageReference(d, item).error == MissingElement(PropertyGroupElement)
    ensures AddPackageReference(d, item).Ok? ==>
      var r := AddPackageReference(d, item).value;
      multiset(Refs(r, k)) == multiset(Refs(d, k)) + multiset(ItemRefs(item, k))
      && (item.kind != k ==> Refs(r, k) == Refs(d, k))
      && PropertyLists(r) == PropertyLists(d)
      && EmptyItemGroups(r) == EmptyItemGroups(d)
  {
    if |Refs(d, PackageReference)| > 0 {
      var loc := Locate(d, PackageReference, 0);
      AppendToGroupRefs(d, loc.0, item, k);
      AppendToGroupKeepsProperties(d, loc.0, item);
      AppendToGroupEmptyGroups(d, loc.0, item);
    } else if LastGroup(d, ProjectReference).Some? {
      var i := LastGroup(d, ProjectReference).value;
      InsertGroupAfterRefs(d, i, item, k);
      InsertGroupAfterKeepsProperties(d, i, item);
      InsertGroupAfterEmptyGroups(d, i, item);
    } else {
      match LastPropertyGroup(d)
      case Some(l) =>
        PropertyGroupLists(d, l);
        InsertGroupAfterRefs(d, l, item, k);
        InsertGroupAfterKeepsProperties(d, l, item);
        InsertGroupAfterEmptyGroups(d, l, item);
      case None =>
        NoPropertyGroupLists(d);
    }
  }

  /** The package ids the declarations add, in order. */
  function PackageIds(decls: seq<PackageDeclaration>): (r: seq<Option<string>>)
    ensures |r| == |decls|
  {
    if |decls| == 0 then [] else [Some(decls[0].id)] + PackageIds(decls[1..])
  }

  /** One `AddPackageReference` per declaration, in order. */
  function AddPackages(d: Document, decls: seq<PackageDeclaration>): Result<Document, Error>
    decreases |decls|
  {
    if |decls| == 0 then Ok(d)
    else
      var next :- AddPackageReference(d, PackageRef(decls[0]));
      AddPackages(next, decls[1..])
  }

  /**
   * Adding the packages fails exactly when there is at least one and no anchor; otherwise
   * the package references gain one reference per declaration and nothing else changes.
   * `AddPackagesFacts` adds where they go.
   */
  lemma {:induction false} AddPackagesInventory(d: Document, decls: seq<PackageDeclaration>, k: ItemKind)
    ensures AddPackages(d, decls).Ok? <==> decls == [] || HasPackageAnchor(d)
    ensures AddPackages(d, decls).Err? ==> AddPackages(d, decls).error == MissingElement(PropertyGroupElement)
    ensures AddPackages(d, decls).Ok? ==>
      var r := AddPackages(d, decls).value;
      multiset(Refs(r, PackageReference)) == multiset(Refs(d, PackageReference)) + multiset(PackageIds(decls))
      && (k != PackageReference ==> Refs(r, k) == Refs(d, k))
      && PropertyLists(r) == PropertyLists(d)
      && EmptyItemGroups(r) == EmptyItemGroups(d)
    decreases |decls|
  {
    if |decls| > 0 {
      var item := PackageRef(decls[0]);
      AddPackageReferenceInventory(d, item, PackageReference);
      AddPackageReferenceInventory(d, item, k);
      if HasPackageAnchor(d) {
        var next := AddPackageReference(d, item).value;
        assert |Refs(next, PackageReference)| > 0 by {
          assert Some(decls[0].id) in multiset(Refs(next, PackageReference));
        }
        AddPackagesInventory(next, decls[1..], k);
        assert PackageIds(decls) == [Some(decls[0].id)] + PackageIds(decls[1..]);
      }
    }
  }

  /** The package references the declarations become, in order, each with its version. */
  function PackageRefs(decls: seq<PackageDeclaration>): (r: seq<Item>)
    ensures |r| == |decls|
    ensures forall j :: 0 <= j < |decls| ==> r[j] == PackageRef(decls[j])
  {
    if |decls| == 0 then [] else [PackageRef(decls[0])] + PackageRefs(decls[1..])
  }

  /**
   * The new package reference lands right after the package references of the first
   * group that has any, which grows by one; with none, it starts that group.
   */
  lemma AddPackageReferenceOrder(d: Document, decl: PackageDeclaration)
    requires AddPackageReference(d, PackageRef(decl)).Ok?
    ensures var r := AddPackageReference(d, PackageRef(decl)).value;
      var items, p := KindItems(d, PackageReference), FirstGroupEnd(d, PackageReference);
      p <= |items|
      && KindItems(r, PackageReference) == items[..p] + [PackageRef(decl)] + items[p..]
      && FirstGroupEnd(r, PackageReference) == p + 1
  {
    var item, k := PackageRef(decl), PackageReference;
    var r := AddPackageReference(d, item).value;
    if Refs(d, k) != [] {
      assert r == AppendToGroup(d, Locate(d, k, 0).0, item);
      OrderInFirstGroup(d, r, item);
    } else if LastGroup(d, ProjectReference).Some? {
      var i := LastGroup(d, ProjectReference).value;
      assert r == InsertGroupAfter(d, i, item);
      OrderInNewGroup(d, i, r, item);
    } else {
      var l := LastPropertyGroup(d).value;
      assert r == InsertGroupAfter(d, l, item);
      OrderInNewGroup(d, l, r, item);
    }
  }

  lemma OrderInFirstGroup(d: Document, r: Document, item: Item)
    requires Refs(d, item.kind) != [] && r == AppendToGroup(d, Locate(d, item.kind, 0).0, item)
    ensures var items, p := KindItems(d, item.kind), FirstGroupEnd(d, item.kind);
      p <= |items| && KindItems(r, item.kind) == items[..p] + [item] + items[p..] && FirstGroupEnd(r, item.kind) == p + 1
  {
    AppendToFirstGroupItems(d, item);
  }

  lemma OrderInNewGroup(d: Document, l: nat, r: Document, item: Item)
    requires l < |d| && Refs(d, item.kind) == [] && r == InsertGroupAfter(d, l, item)
    ensures var items, p := KindItems(d, item.kind), FirstGroupEnd(d, item.kind);
      p <= |items| && KindItems(r, item.kind) == items[..p] + [item] + items[p..] && FirstGroupEnd(r, item.kind) == p + 1
  {
    KindItemsIncludes(d, item.kind);
    InsertFirstGroupItems(d, l, item);
  }

  /**
   * Where `AddPackageReference` puts the new item: last in the item group that holds the
   * first package reference, every other element unchanged; with none, alone in a new
   * item group right after the group of the last project reference; with neither, alone
   * in a new item group right after the last property group.
   */
  lemma AddPackageReferencePlacement(d: Document, decl: PackageDeclaration)
    requires AddPackageReference(d, PackageRef(decl)).Ok?
    ensures var r := AddPackageReference(d, PackageRef(decl)).value;
      Refs(d, PackageReference) != [] ==>
        exists i :: 0 <= i < |d| && Refs(d[..i], PackageReference) == [] && ElementRefs(d[i], PackageReference) != []
          && |r| == |d| && r[i] == ItemGroup(d[i].items + [PackageRef(decl)])
          && forall m :: 0 <= m < |d| && m != i ==> r[m] == d[m]
    ensures var r := AddPackageReference(d, PackageRef(decl)).value;
      Refs(d, PackageReference) == [] && Refs(d, ProjectReference) != [] ==>
        exists i :: 0 <= i < |d| && ElementRefs(d[i], ProjectReference) != [] && Refs(d[i + 1..], ProjectReference) == []
          && r == d[..i + 1] + [ItemGroup([PackageRef(decl)])] + d[i + 1..]
    ensures var r := AddPackageReference(d, PackageRef(decl)).value;
      Refs(d, PackageReference) == [] && Refs(d, ProjectReference) == [] ==>
        exists l :: 0 <= l < |d| && d[l].PropertyGroup? && (forall m :: l < m < |d| ==> !d[m].PropertyGroup?)
          && r == d[..l + 1] + [ItemGroup([PackageRef(decl)])] + d[l + 1..]
  {
    if Refs(d, PackageReference) != [] {
      PlacedInFirstGroup(d, decl);
    } else if Refs(d, ProjectReference) != [] {
      PlacedAfterProjectReferences(d, decl);
    } else {
      PlacedAfterProperties(d, decl);
    }
  }

  lemma PlacedInFirstGroup(d: Document, decl: PackageDeclaration)
    requires Refs(d, PackageReference) != []
    ensures var r := AddPackageReference(d, PackageRef(decl)).value;
      exists i :: 0 <= i < |d| && Refs(d[..i], PackageReference) == [] && ElementRefs(d[i], PackageReference) != []
        && |r| == |d| && r[i] == ItemGroup(d[i].items + [PackageRef(decl)])
        && forall m :: 0 <= m < |d| && m != i ==> r[m] == d[m]
  {
    var r := AddPackageReference(d, PackageRef(decl)).value;
    var i := Locate(d, PackageReference, 0).0;
    LocateFirstGroup(d, PackageReference);
    assert r[i] == ItemGroup(d[i].items + [PackageRef(decl)]);
  }

  lemma PlacedAfterProjectReferences(d: Document, decl: PackageDeclaration)
    requires Refs(d, PackageReference) == [] && Refs(d, ProjectReference) != []
    ensures var r := AddPackageReference(d, PackageRef(decl)).value;
      exists i :: 0 <= i < |d| && ElementRefs(d[i], ProjectReference) != [] && Refs(d[i + 1..], ProjectReference) == []
        && r == d[..i + 1] + [ItemGroup([PackageRef(decl)])] + d[i + 1..]
  {
    var i := LastGroup(d, ProjectReference).value;
    assert AddPackageReference(d, PackageRef(decl)).value == InsertGroupAfter(d, i, PackageRef(decl));
    NewGroupAfterLast(d, i, PackageRef(decl));
  }

  lemma NewGroupAfterLast(d: Document, i: nat, item: Item)
    requires LastGroup(d, ProjectReference) == Some(i)
    ensures exists j :: 0 <= j < |d| && ElementRefs(d[j], ProjectReference) != [] && Refs(d[j + 1..], ProjectReference) == []
                        && InsertGroupAfter(d, i, item) == d[..j + 1] + [ItemGroup([item])] + d[j + 1..]
  {
  }

  lemma PlacedAfterProperties(d: Document, decl: PackageDeclaration)
    requires Refs(d, PackageReference) == [] && Refs(d, ProjectReference) == []
    requires AddPackageReference(d, PackageRef(decl)).Ok?
    ensures var r := AddPackageReference(d, PackageRef(decl)).value;
      exists l :: 0 <= l < |d| && d[l].PropertyGroup? && (forall m :: l < m < |d| ==> !d[m].PropertyGroup?)
        && r == d[..l + 1] + [ItemGroup([PackageRef(decl)])] + d[l + 1..]
  {
    var l := LastPropertyGroup(d).value;
    assert AddPackageReference(d, PackageRef(decl)).value == InsertGroupAfter(d, l, PackageRef(decl));
  }

  /**
   * The packages' references land, in the declarations' order and each with its version,
   * right after the first group of package references, which grows by one per package.
   */
  lemma {:induction false} AddPackagesOrder(d: Document, decls: seq<PackageDeclaration>)
    requires AddPackages(d, decls).Ok?
    ensures var r := AddPackages(d, decls).value;
      var items, p := KindItems(d, PackageReference), FirstGroupEnd(d, PackageReference);
      p <= |items|
      && KindItems(r, PackageReference) == items[..p] + PackageRefs(decls) + items[p..]
      && FirstGroupEnd(r, PackageReference) == p + |decls|
    decreases |decls|
  {
    var items, p := KindItems(d, PackageReference), FirstGroupEnd(d, PackageReference);
    KindItemsIncludes(d, PackageReference);
    if |decls| == 0 {
      assert items[..p] + [] + items[p..] == items;
    } else {
      var item := PackageRef(decls[0]);
      var next := AddPackageReference(d, item).value;
      AddPackageReferenceOrder(d, decls[0]);
      AddPackagesOrder(next, decls[1..]);
      var r := AddPackages(next, decls[1..]).value;
      InsertAfterInserted(items, p, [item], PackageRefs(decls[1..]), KindItems(next, PackageReference),
                          KindItems(r, PackageReference));
      assert PackageRefs(decls) == [item] + PackageRefs(decls[1..]);
    }
  }

  /**
   * Adding a package reference fails exactly when there is no anchor for it; otherwise
   * `<PackageReference Include="id" Version="version" />` lands right after the package
   * references of the first group that has any, nothing else changes, and no empty item
   * group appears or disappears.
   */
  lemma AddPackageReferenceFacts(d: Document, decl: PackageDeclaration, k: ItemKind)
    ensures AddPackageReference(d, PackageRef(decl)).Err? <==> !HasPackageAnchor(d)
    ensures AddPackageReference(d, PackageRef(decl)).Err? ==>
      AddPackageReference(d, PackageRef(decl)).error == MissingElement(PropertyGroupElement)
    ensures AddPackageReference(d, PackageRef(decl)).Ok? ==>
      var r := AddPackageReference(d, PackageRef(decl)).value;
      var items, p := KindItems(d, PackageReference), FirstGroupEnd(d, PackageReference);
      && p <= |items|
      && KindItems(r, PackageReference) == items[..p] + [Item(PackageReference, Some(decl.id), Some(decl.version.GetOr("")))] + items[p..]
      && (k != PackageReference ==> Refs(r, k) == Refs(d, k))
      && PropertyLists(r) == PropertyLists(d)
      && EmptyItemGroups(r) == EmptyItemGroups(d)
  {
    AddPackageReferenceInventory(d, PackageRef(decl), k);
    if AddPackageReference(d, PackageRef(decl)).Ok? {
      AddPackageReferenceOrder(d, decl);
    }
  }

  /**
   * Adding the packages fails exactly when there is at least one and no anchor; otherwise
   * their references, with their versions and in their order, land right after the
   * package references of the first group that has any, and nothing else changes.
   */
  lemma AddPackagesFacts(d: Document, decls: seq<PackageDeclaration>, k: ItemKind)
    ensures AddPackages(d, decls).Ok? <==> decls == [] || HasPackageAnchor(d)
    ensures AddPackages(d, decls).Err? ==> AddPackages(d, decls).error == MissingElement(PropertyGroupElement)
    ensures AddPackages(d, decls).Ok? ==>
      var r := AddPackages(d, decls).value;
      var items, p := KindItems(d, PackageReference), FirstGroupEnd(d, PackageReference);
      && p <= |items|
      && KindItems(r, PackageReference) == items[..p] + PackageRefs(decls) + items[p..]
      && (k != PackageReference ==> Refs(r, k) == Refs(d, k))
      && PropertyLists(r) == PropertyLists(d)
      && EmptyItemGroups(r) == EmptyItemGroups(d)
  {
    AddPackagesInventory(d, decls, k);
    if AddPackages(d, decls).Ok? {
      AddPackagesOrder(d, decls);
    }
  }

  // ---------------------------------------------------------------------------
  // GetProjectToNugetMap
  // ---------------------------------------------------------------------------

  /** No two entries of the sequence are equal. */
  ghost predicate Distinct<T>(s: seq<T>) {
    forall i, j :: 0 <= i < j < |s| ==> s[i] != s[j]
  }

  lemma DistinctCons<T>(x: T, s: seq<T>)
    ensures Distinct([x] + s) <==> x !in s && Distinct(s)
  {
    var t := [x] + s;
    assert t[1..] == s;
    if x !in s && Distinct(s) {
      forall i, j | 0 <= i < j < |t|
        ensures t[i] != t[j]
      {
        if i > 0 {
          assert t[i] == s[i - 1] && t[j] == s[j - 1];
        } else {
          assert t[j] == s[j - 1];
        }
      }
    }
    if Distinct(t) {
      forall i, j | 0 <= i < j < |s|
        ensures s[i] != s[j]
      {
        assert s[i] == t[i + 1] && s[j] == t[j + 1];
      }
      forall j | 0 <= j < |s|
        ensures s[j] != x
      {
        assert s[j] == t[j + 1] && x == t[0];
      }
    }
  }

  /** The path by which a shadow of `current` refers to the shadow of a project, '\\' made '/'. */
  function PathOf(root: string, current: string, sep: char): Project -> string {
    OwnerRef(root, current, sep, Service)
  }

  /** The path of each owner, in order. */
  function OwnerPaths(owners: seq<Project>, pathOf: Project -> string): (r: seq<string>)
    ensures |r| == |owners|
  {
    if |owners| == 0 then [] else [pathOf(owners[0])] + OwnerPaths(owners[1..], pathOf)
  }

  /** The inner loop: `map.Add(prjPath, nuget.Value)` for each project of one declaration. */
  function MapOwners(m: map<string, PackageDeclaration>, owners: seq<Project>, decl: PackageDeclaration,
                     pathOf: Project -> string): Result<map<string, PackageDeclaration>, Error>
    decreases |owners|
  {
    if |owners| == 0 then Ok(m)
    else
      var path := pathOf(owners[0]);
      if path in m then Err(DuplicateKey(path))
      else MapOwners(m[path := decl], owners[1..], decl, pathOf)
  }

  /** The outer loop, over the declarations in the registry's order. */
  function MapPackages(m: map<string, PackageDeclaration>, keys: seq<string>, entries: map<string, PackageDeclaration>,
                       pathOf: Project -> string): Result<map<string, PackageDeclaration>, Error>
    requires forall k :: k in keys ==> k in entries
    decreases |keys|
  {
    if |keys| == 0 then Ok(m)
    else
      var decl := entries[keys[0]];
      var next :- MapOwners(m, decl.projects, decl, pathOf);
      MapPackages(next, keys[1..], entries, pathOf)
  }

  /**
   * `GetProjectToNugetMap`: from the path by which a shadow of `current` refers to the
   * shadow of a project, to the package that project builds.
   */
  function ProjectToPackageMap(reg: Registry, root: string, current: string, sep: char)
    : Result<map<string, PackageDeclaration>, Error>
    requires reg.Valid()
  {
    MapPackages(map[], reg.keys, reg.entries, PathOf(root, current, sep))
  }

  /** Every owner path of the declarations under `keys`, in the order the map sees them. */
  function AllPaths(keys: seq<string>, entries: map<string, PackageDeclaration>, pathOf: Project -> string): seq<string>
    requires forall k :: k in keys ==> k in entries
  {
    if |keys| == 0 then [] else OwnerPaths(entries[keys[0]].projects, pathOf) + AllPaths(keys[1..], entries, pathOf)
  }

  /**
   * The inner loop fails exactly when two owners share a path or one is already mapped;
   * on success it maps every owner path to the declaration and keeps every earlier entry.
   */
  lemma {:induction false} MapOwnersFacts(m: map<string, PackageDeclaration>, owners: seq<Project>, decl: PackageDeclaration,
                                          pathOf: Project -> string)
    ensures var paths := OwnerPaths(owners, pathOf);
      MapOwners(m, owners, decl, pathOf).Ok? <==> Distinct(paths) && (forall p :: p in paths ==> p !in m)
    ensures MapOwners(m, owners, decl, pathOf).Err? ==> MapOwners(m, owners, decl, pathOf).error.DuplicateKey?
    ensures MapOwners(m, owners, decl, pathOf).Ok? ==>
      var r := MapOwners(m, owners, decl, pathOf).value;
      var paths := OwnerPaths(owners, pathOf);
      && (forall p :: p in r <==> p in m || p in paths)
      && (forall p :: p in m ==> p in r && r[p] == m[p])
      && (forall p :: p in paths ==> p in r && r[p] == decl)
    decreases |owners|
  {
    if |owners| > 0 {
      var path := pathOf(owners[0]);
      var paths := OwnerPaths(owners, pathOf);
      var rest := OwnerPaths(owners[1..], pathOf);
      assert paths == [path] + rest;
      DistinctCons(path, rest);
      MapOwnersFacts(m[path := decl], owners[1..], decl, pathOf);

    }
  }

  lemma DistinctAppend<T>(a: seq<T>, b: seq<T>)
    ensures Distinct(a + b) <==> Distinct(a) && Distinct(b) && (forall x :: x in a ==> x !in b)
  {
    var t := a + b;
    if Distinct(t) {
      forall i, j | 0 <= i < j < |a|
        ensures a[i] != a[j]
      {
        assert a[i] == t[i] && a[j] == t[j];
      }
      forall i, j | 0 <= i < j < |b|
        ensures b[i] != b[j]
      {
        assert b[i] == t[|a| + i] && b[j] == t[|a| + j];
      }
      forall i, j | 0 <= i < |a| && 0 <= j < |b|
        ensures a[i] != b[j]
      {
        assert a[i] == t[i] && b[j] == t[|a| + j];
      }
    }
    if Distinct(a) && Distinct(b) && (forall x :: x in a ==> x !in b) {
      forall i, j | 0 <= i < j < |t|
        ensures t[i] != t[j]
      {
        if j < |a| {
          assert t[i] == a[i] && t[j] == a[j];
        } else if i >= |a| {
          assert t[i] == b[i - |a|] && t[j] == b[j - |a|];
        } else {
          assert t[i] == a[i] && t[j] == b[j - |a|];
          assert a[i] in a && b[j - |a|] in b;
        }
      }
    }
  }

  /**
   * The outer loop fails exactly when two owner paths, of the same declaration or of two,
   * coincide, or one is already mapped; the failure is then a duplicate key.
   */
  lemma {:induction false} MapPackagesSucceeds(m: map<string, PackageDeclaration>, keys: seq<string>,
                                               entries: map<string, PackageDeclaration>, pathOf: Project -> string)
    requires forall k :: k in keys ==> k in entries
    ensures var paths := AllPaths(keys, entries, pathOf);
      MapPackages(m, keys, entries, pathOf).Ok? <==> Distinct(paths) && (forall p :: p in paths ==> p !in m)
    ensures MapPackages(m, keys, entries, pathOf).Err? ==> MapPackages(m, keys, entries, pathOf).error.DuplicateKey?
    decreases |keys|
  {
    if |keys| > 0 {
      var decl := entries[keys[0]];
      var first := OwnerPaths(decl.projects, pathOf);
      var later := AllPaths(keys[1..], entries, pathOf);
      MapOwnersFacts(m, decl.projects, decl, pathOf);
      DistinctAppend(first, later);
      var next := MapOwners(m, decl.projects, decl, pathOf);
      if next.Ok? {
        MapPackagesSucceeds(next.value, keys[1..], entries, pathOf);
      }
    }
  }

  /**
   * A successful outer loop maps every owner path of the declaration under each key to
   * that declaration, keeps every earlier entry, and maps nothing else.
   */
  lemma {:induction false} MapPackagesResult(m: map<string, PackageDeclaration>, keys: seq<string>,
                                             entries: map<string, PackageDeclaration>, pathOf: Project -> string)
    requires forall k :: k in keys ==> k in entries
    requires MapPackages(m, keys, entries, pathOf).Ok?
    ensures var r := MapPackages(m, keys, entries, pathOf).value;
      && (forall p :: p in r <==> p in m || p in AllPaths(keys, entries, pathOf))
      && (forall p :: p in m ==> p in r && r[p] == m[p])
      && (forall i, p :: 0 <= i < |keys| && p in OwnerPaths(entries[keys[i]].projects, pathOf) ==> p in r && r[p] == entries[keys[i]])
  {
    forall p
      ensures p in MapPackages(m, keys, entries, pathOf).value <==> p in m || p in AllPaths(keys, entries, pathOf)
    {
      MapPackagesDomain(m, keys, entries, pathOf, p);
    }
    forall p | p in m
      ensures var r := MapPackages(m, keys, entries, pathOf).value; p in r && r[p] == m[p]
    {
      MapPackagesKeeps(m, keys, entries, pathOf, p);
    }
    forall i, p | 0 <= i < |keys| && p in OwnerPaths(entries[keys[i]].projects, pathOf)
      ensures var r := MapPackages(m, keys, entries, pathOf).value; p in r && r[p] == entries[keys[i]]
    {
      MapPackagesMaps(m, keys, entries, pathOf, i, p);
    }
  }

  /** One step of the outer loop: the first key's owners, then the rest. */
  lemma MapPackagesCons(m: map<string, PackageDeclaration>, keys: seq<string>,
                        entries: map<string, PackageDeclaration>, pathOf: Project -> string)
    requires |keys| > 0 && forall k :: k in keys ==> k in entries
    requires MapPackages(m, keys, entries, pathOf).Ok?
    ensures var decl := entries[keys[0]];
      && MapOwners(m, decl.projects, decl, pathOf).Ok?
      && MapPackages(MapOwners(m, decl.projects, decl, pathOf).value, keys[1..], entries, pathOf)
         == MapPackages(m, keys, entries, pathOf)
  {
  }

  lemma {:induction false} MapPackagesDomain(m: map<string, PackageDeclaration>, keys: seq<string>,
                                             entries: map<string, PackageDeclaration>, pathOf: Project -> string, p: string)
    requires forall k :: k in keys ==> k in entries
    requires MapPackages(m, keys, entries, pathOf).Ok?
    ensures p in MapPackages(m, keys, entries, pathOf).value <==> p in m || p in AllPaths(keys, entries, pathOf)
    decreases |keys|
  {
    if |keys| > 0 {
      var decl := entries[keys[0]];
      MapPackagesCons(m, keys, entries, pathOf);
      MapOwnersFacts(m, decl.projects, decl, pathOf);
      MapPackagesDomain(MapOwners(m, decl.projects, decl, pathOf).value, keys[1..], entries, pathOf, p);
    }
  }

  lemma {:induction false} MapPackagesKeeps(m: map<string, PackageDeclaration>, keys: seq<string>,
                                            entries: map<string, PackageDeclaration>, pathOf: Project -> string, p: string)
    requires forall k :: k in keys ==> k in entries
    requires MapPackages(m, keys, entries, pathOf).Ok?
    requires p in m
    ensures var r := MapPackages(m, keys, entries, pathOf).value; p in r && r[p] == m[p]
    decreases |keys|
  {
    if |keys| > 0 {
      var decl := entries[keys[0]];
      MapPackagesCons(m, keys, entries, pathOf);
      MapOwnersFacts(m, decl.projects, decl, pathOf);
      MapPackagesKeeps(MapOwners(m, decl.projects, decl, pathOf).value, keys[1..], entries, pathOf, p);
    }
  }

  lemma {:induction false} MapPackagesMaps(m: map<string, PackageDeclaration>, keys: seq<string>,
                                           entries: map<string, PackageDeclaration>, pathOf: Project -> string,
                                           i: nat, p: string)
    requires forall k :: k in keys ==> k in entries
    requires MapPackages(m, keys, entries, pathOf).Ok?
    requires i < |keys| && p in OwnerPaths(entries[keys[i]].projects, pathOf)
    ensures var r := MapPackages(m, keys, entries, pathOf).value; p in r && r[p] == entries[keys[i]]
    decreases |keys|
  {
    var decl := entries[keys[0]];
    MapPackagesCons(m, keys, entries, pathOf);
    var next := MapOwners(m, decl.projects, decl, pathOf).value;
    if i == 0 {
      MapOwnersFacts(m, decl.projects, decl, pathOf);
      MapPackagesKeeps(next, keys[1..], entries, pathOf, p);
    } else {
      assert keys[1..][i - 1] == keys[i];
      MapPackagesMaps(next, keys[1..], entries, pathOf, i - 1, p);
    }
  }

  // ---------------------------------------------------------------------------
  // RevertPackageReferences
  // ---------------------------------------------------------------------------

  /** The project reference is to the shadow of a project that builds a workspace package. */
  predicate Mapped(x: Option<string>, m: map<string, PackageDeclaration>) {
    x.Some? && x.value in m
  }

  /** The project references that stay. */
  function Unmapped(refs: seq<Option<string>>, m: map<string, PackageDeclaration>): seq<Option<string>> {
    if |refs| == 0 then []
    else (if Mapped(refs[0], m) then [] else [refs[0]]) + Unmapped(refs[1..], m)
  }

  /** `packagesToAdd.Add(decl)`: a set that enumerates in the order its members arrived. */
  function Collected(found: seq<PackageDeclaration>, decl: PackageDeclaration): seq<PackageDeclaration> {
    if decl in found then found else found + [decl]
  }

  /** The packages to add once the references in `refs` have been visited. */
  function FirstSeen(found: seq<PackageDeclaration>, refs: seq<Option<string>>, m: map<string, PackageDeclaration>)
    : seq<PackageDeclaration>
    decreases |refs|
  {
    if |refs| == 0 then found
    else FirstSeen(if Mapped(refs[0], m) then Collected(found, m[refs[0].value]) else found, refs[1..], m)
  }

  /**
   * The loop of `RevertPackageReferences` from the `u`-th project reference on: one
   * without `Include` throws; one the map knows is removed, with its group if that is
   * left empty, and its package joins the packages to add.
   */
  function CollectFrom(d: Document, m: map<string, PackageDeclaration>, u: nat, found: seq<PackageDeclaration>)
    : Result<(Document, seq<PackageDeclaration>), Error>
    decreases |Refs(d, ProjectReference)| - u
  {
    if u >= |Refs(d, ProjectReference)| then Ok((d, found))
    else
      var loc := Locate(d, ProjectReference, u);
      match d[loc.0].items[loc.1].includeAttr
      case None => Err(NullReference("Include"))
      case Some(path) =>
        if path !in m then CollectFrom(d, m, u + 1, found)
        else
          RemoveNthRef(d, ProjectReference, u, true);
          CollectFrom(RemoveItem(d, loc.0, loc.1, true), m, u, Collected(found, m[path]))
  }

  /** One step of the loop, at the `u`-th project reference. */
  lemma CollectStep(d: Document, m: map<string, PackageDeclaration>, u: nat, found: seq<PackageDeclaration>)
    requires u < |Refs(d, ProjectReference)|
    ensures var loc := Locate(d, ProjectReference, u);
      var x := Refs(d, ProjectReference)[u];
      var result := CollectFrom(d, m, u, found);
      && (x.None? ==> result == Err(NullReference("Include")))
      && (x.Some? && x.value !in m ==> result == CollectFrom(d, m, u + 1, found))
      && (Mapped(x, m) ==> result == CollectFrom(RemoveItem(d, loc.0, loc.1, true), m, u, Collected(found, m[x.value])))
  {
  }

  /** Removing a project reference with its emptied group: what changes and what does not. */
  lemma RemoveProjectReference(d: Document, u: nat, k: ItemKind)
    requires u < |Refs(d, ProjectReference)|
    ensures var loc := Locate(d, ProjectReference, u);
      var r := RemoveItem(d, loc.0, loc.1, true);
      var all := Refs(d, ProjectReference);
      && Refs(r, ProjectReference) == all[..u] + all[u + 1..]
      && (k != ProjectReference ==> Refs(r, k) == Refs(d, k))
      && PropertyLists(r) == PropertyLists(d)
      && EmptyItemGroups(r) == EmptyItemGroups(d)
  {
    var loc := Locate(d, ProjectReference, u);
    RemoveNthRef(d, ProjectReference, u, true);
    if k != ProjectReference {
      RemoveItemOtherRefs(d, loc.0, loc.1, true, k);
    }
    RemoveItemKeepsProperties(d, loc.0, loc.1, true);
    RemoveItemEmptyGroups(d, loc.0, loc.1, true);
  }

  /** The loop fails exactly when one of the remaining project references has no `Include`. */
  lemma {:induction false} CollectSucceeds(d: Document, m: map<string, PackageDeclaration>, u: nat, found: seq<PackageDeclaration>)
    requires u <= |Refs(d, ProjectReference)|
    ensures CollectFrom(d, m, u, found).Ok? <==> None !in Refs(d, ProjectReference)[u..]
    decreases |Refs(d, ProjectReference)| - u
  {
    var all := Refs(d, ProjectReference);
    if u < |all| {
      NoneInTail(all, u);
      CollectStep(d, m, u, found);
      var x := all[u];
      if Mapped(x, m) {
        var loc := Locate(d, ProjectReference, u);
        var r := RemoveItem(d, loc.0, loc.1, true);
        RemoveProjectReference(d, u, ProjectReference);
        TailAfterRemoval(all, u, Refs(r, ProjectReference));
        CollectSucceeds(r, m, u, Collected(found, m[x.value]));
      } else if x.Some? {
        CollectSucceeds(d, m, u + 1, found);
      }
    }
  }

  /** A tail is free of `None` when its first entry is not `None` and the rest is free of it. */
  lemma NoneInTail(all: seq<Option<string>>, u: nat)
    requires u < |all|
    ensures None !in all[u..] <==> all[u] != None && None !in all[u + 1..]
  {
    assert all[u..] == [all[u]] + all[u + 1..];
  }

  /** After the `u`-th entry is removed, the tail from `u` is what followed it. */
  lemma TailAfterRemoval(all: seq<Option<string>>, u: nat, rest: seq<Option<string>>)
    requires u < |all| && rest == all[..u] + all[u + 1..]
    ensures u <= |rest| && rest[u..] == all[u + 1..]
  {
  }

  /**
   * A successful loop from the `u`-th project reference on keeps exactly the references
   * the map does not know, collects their packages once each in the order first met,
   * and leaves every other item, every property and every empty group as it was.
   */
  lemma {:induction false} CollectResult(d: Document, m: map<string, PackageDeclaration>, u: nat,
                                         found: seq<PackageDeclaration>, k: ItemKind)
    requires u <= |Refs(d, ProjectReference)|
    requires CollectFrom(d, m, u, found).Ok?
    ensures var all := Refs(d, ProjectReference);
      var r := CollectFrom(d, m, u, found).value;
      && Refs(r.0, ProjectReference) == all[..u] + Unmapped(all[u..], m)
      && r.1 == FirstSeen(found, all[u..], m)
      && (k != ProjectReference ==> Refs(r.0, k) == Refs(d, k))
      && PropertyLists(r.0) == PropertyLists(d)
      && EmptyItemGroups(r.0) == EmptyItemGroups(d)
    decreases |Refs(d, ProjectReference)| - u, 1
  {
    var all := Refs(d, ProjectReference);
    if u == |all| {
      assert all[u..] == [] && all[..u] + [] == all;
    } else if Mapped(all[u], m) {
      CollectResultMapped(d, m, u, found, k);
    } else {
      CollectResultKept(d, m, u, found, k);
    }
  }

  lemma {:induction false} CollectResultMapped(d: Document, m: map<string, PackageDeclaration>, u: nat,
                                               found: seq<PackageDeclaration>, k: ItemKind)
    requires u < |Refs(d, ProjectReference)| && Mapped(Refs(d, ProjectReference)[u], m)
    requires CollectFrom(d, m, u, found).Ok?
    ensures var all := Refs(d, ProjectReference);
      var r := CollectFrom(d, m, u, found).value;
      && Refs(r.0, ProjectReference) == all[..u] + Unmapped(all[u..], m)
      && r.1 == FirstSeen(found, all[u..], m)
      && (k != ProjectReference ==> Refs(r.0, k) == Refs(d, k))
      && PropertyLists(r.0) == PropertyLists(d)
      && EmptyItemGroups(r.0) == EmptyItemGroups(d)
    decreases |Refs(d, ProjectReference)| - u, 0
  {
    var all := Refs(d, ProjectReference);
    var refs := all[u..];
    DropFirst(all, u);
    assert refs[0] == all[u] && refs[1..] == all[u + 1..];
    CollectStep(d, m, u, found);
    var x := all[u];
    var loc := Locate(d, ProjectReference, u);
    var r := RemoveItem(d, loc.0, loc.1, true);
    RemoveProjectReference(d, u, k);
    RemoveProjectReference(d, u, ProjectReference);
    var rest := Refs(r, ProjectReference);
    assert rest[..u] == all[..u] && rest[u..] == all[u + 1..];
    CollectResult(r, m, u, Collected(found, m[x.value]), k);
    assert Unmapped(refs, m) == Unmapped(all[u + 1..], m);
  }

  lemma {:induction false} CollectResultKept(d: Document, m: map<string, PackageDeclaration>, u: nat,
                                             found: seq<PackageDeclaration>, k: ItemKind)
    requires u < |Refs(d, ProjectReference)| && !Mapped(Refs(d, ProjectReference)[u], m)
    requires CollectFrom(d, m, u, found).Ok?
    ensures var all := Refs(d, ProjectReference);
      var r := CollectFrom(d, m, u, found).value;
      && Refs(r.0, ProjectReference) == all[..u] + Unmapped(all[u..], m)
      && r.1 == FirstSeen(found, all[u..], m)
      && (k != ProjectReference ==> Refs(r.0, k) == Refs(d, k))
      && PropertyLists(r.0) == PropertyLists(d)
      && EmptyItemGroups(r.0) == EmptyItemGroups(d)
    decreases |Refs(d, ProjectReference)| - u, 0
  {
    CollectSkip(d, m, u, found);
    CollectResult(d, m, u + 1, found, k);
    var r := CollectFrom(d, m, u + 1, found).value;
    SkipKept(Refs(d, ProjectReference), u, m, found, Refs(r.0, ProjectReference), r.1);
  }

  /**
   * The loop removes only project references, so every other kind keeps its items, with
   * their attributes, and its first group.
   */
  lemma {:induction false} CollectKeepsItems(d: Document, m: map<string, PackageDeclaration>, u: nat,
                                             found: seq<PackageDeclaration>, k: ItemKind)
    requires k != ProjectReference && u <= |Refs(d, ProjectReference)|
    requires CollectFrom(d, m, u, found).Ok?
    ensures var r := CollectFrom(d, m, u, found).value.0;
      KindItems(r, k) == KindItems(d, k) && FirstGroupEnd(r, k) == FirstGroupEnd(d, k)
    decreases |Refs(d, ProjectReference)| - u
  {
    var all := Refs(d, ProjectReference);
    if u < |all| {
      if Mapped(all[u], m) {
        var loc := Locate(d, ProjectReference, u);
        var r := RemoveItem(d, loc.0, loc.1, true);
        CollectStep(d, m, u, found);
        RemoveNthRef(d, ProjectReference, u, true);
        RemoveItemOtherItems(d, loc.0, loc.1, true, k);
        RemoveItemFirstGroup(d, loc.0, loc.1, true, k);
        CollectKeepsItems(r, m, u, Collected(found, m[all[u].value]), k);
      } else {
        CollectSkip(d, m, u, found);
        CollectKeepsItems(d, m, u + 1, found, k);
      }
    }
  }

  /** A successful loop passes over a reference the map does not know. */
  lemma CollectSkip(d: Document, m: map<string, PackageDeclaration>, u: nat, found: seq<PackageDeclaration>)
    requires u < |Refs(d, ProjectReference)| && !Mapped(Refs(d, ProjectReference)[u], m)
    requires CollectFrom(d, m, u, found).Ok?
    ensures CollectFrom(d, m, u, found) == CollectFrom(d, m, u + 1, found)
  {
    CollectStep(d, m, u, found);
  }

  /** A reference the map does not know stays where it is and adds no package. */
  lemma SkipKept(all: seq<Option<string>>, u: nat, m: map<string, PackageDeclaration>, found: seq<PackageDeclaration>,
                 kept: seq<Option<string>>, packages: seq<PackageDeclaration>)
    requires u < |all| && !Mapped(all[u], m)
    requires kept == all[..u + 1] + Unmapped(all[u + 1..], m)
    requires packages == FirstSeen(found, all[u + 1..], m)
    ensures kept == all[..u] + Unmapped(all[u..], m)
    ensures packages == FirstSeen(found, all[u..], m)
  {
    var refs := all[u..];
    DropFirst(all, u);
    assert refs[0] == all[u] && refs[1..] == all[u + 1..];
    assert Unmapped(refs, m) == [all[u]] + Unmapped(all[u + 1..], m);
  }

  /** The packages some visited reference leads to, as a set. */
  function MappedPackages(refs: seq<Option<string>>, m: map<string, PackageDeclaration>): set<PackageDeclaration> {
    set x | x in refs && Mapped(x, m) :: m[x.value]
  }

  /**
   * The packages to add are those already found followed by the newly met ones: each
   * once, every one a package some visited reference leads to.
   */
  lemma {:induction false} FirstSeenFacts(found: seq<PackageDeclaration>, refs: seq<Option<string>>, m: map<string, PackageDeclaration>)
    ensures var r := FirstSeen(found, refs, m);
      && |found| <= |r| && r[..|found|] == found
      && (Distinct(found) ==> Distinct(r))
      && (forall decl :: decl in r <==> decl in found || decl in MappedPackages(refs, m))
    decreases |refs|
  {
    if |refs| > 0 {
      var next := if Mapped(refs[0], m) then Collected(found, m[refs[0].value]) else found;
      FirstSeenFacts(next, refs[1..], m);
      if Mapped(refs[0], m) && m[refs[0].value] !in found {
        DistinctAppend(found, [m[refs[0].value]]);
        assert next[..|found|] == found;
      }
      var r := FirstSeen(found, refs, m);
      assert r[..|found|] == r[..|next|][..|found|];
      forall decl
        ensures decl in r <==> decl in found || decl in MappedPackages(refs, m)
      {
        if decl in MappedPackages(refs, m) && decl !in MappedPackages(refs[1..], m) {
          var x :| x in refs && Mapped(x, m) && m[x.value] == decl;
          if x != refs[0] {
            assert x in refs[1..];
          }
        }
        if decl in MappedPackages(refs[1..], m) {
          var x :| x in refs[1..] && Mapped(x, m) && m[x.value] == decl;
          assert x in refs;
        }
      }
    }
  }

  /**
   * `RevertPackageReferences`: the map from shadow paths to packages, the loop over the
   * project references, then one `AddPackageReference` per collected package.
   */
  function RevertPackageReferences(d: Document, reg: Registry, root: string, current: string, sep: char)
    : Result<Document, Error>
    requires reg.Valid()
  {
    var m :- ProjectToPackageMap(reg, root, current, sep);
    var collected :- CollectFrom(d, m, 0, []);
    AddPackages(collected.0, collected.1)
  }

  // ---------------------------------------------------------------------------
  // The whole document
  // ---------------------------------------------------------------------------

  /**
   * Reverting the package references, given a property group to anchor them, fails
   * exactly when the map cannot be built or a project reference has no `Include`.
   */
  lemma RevertPackageReferencesSucceeds(d: Document, reg: Registry, root: string, current: string, sep: char)
    requires reg.Valid()
    requires PropertyLists(d) != []
    ensures RevertPackageReferences(d, reg, root, current, sep).Ok?
        <==> ProjectToPackageMap(reg, root, current, sep).Ok? && None !in Refs(d, ProjectReference)
  {
    var m := ProjectToPackageMap(reg, root, current, sep);
    if m.Ok? {
      var all := Refs(d, ProjectReference);
      assert all[0..] == all;
      CollectSucceeds(d, m.value, 0, []);
      var collected := CollectFrom(d, m.value, 0, []);
      if collected.Ok? {
        CollectResult(d, m.value, 0, [], ProjectReference);
        AddPackagesInventory(collected.value.0, collected.value.1, ProjectReference);
      }
    }
  }

  /**
   * A successful revert of the package references: the project references the map knows
   * are gone, the others stay in order; the package references gain one reference per
   * package those led to; every other item, every property and every empty group stays.
   */
  lemma RevertPackageReferencesResult(d: Document, reg: Registry, root: string, current: string, sep: char, k: ItemKind)
    requires reg.Valid()
    requires RevertPackageReferences(d, reg, root, current, sep).Ok?
    ensures var m := ProjectToPackageMap(reg, root, current, sep).value;
      var refs := Refs(d, ProjectReference);
      var r := RevertPackageReferences(d, reg, root, current, sep).value;
      var items, p := KindItems(d, PackageReference), FirstGroupEnd(d, PackageReference);
      && Refs(r, ProjectReference) == Unmapped(refs, m)
      && multiset(Refs(r, PackageReference))
         == multiset(Refs(d, PackageReference)) + multiset(PackageIds(FirstSeen([], refs, m)))
      && p <= |items|
      && KindItems(r, PackageReference) == items[..p] + PackageRefs(FirstSeen([], refs, m)) + items[p..]
      && (k != PackageReference && k != ProjectReference ==> Refs(r, k) == Refs(d, k))
      && PropertyLists(r) == PropertyLists(d)
      && EmptyItemGroups(r) == EmptyItemGroups(d)
  {
    var m := ProjectToPackageMap(reg, root, current, sep).value;
    var all := Refs(d, ProjectReference);
    assert all[0..] == all && all[..0] == [];
    assert [] + Unmapped(all, m) == Unmapped(all, m);
    CollectResult(d, m, 0, [], k);
    CollectResult(d, m, 0, [], PackageReference);
    var collected := CollectFrom(d, m, 0, []).value;
    AddPackagesInventory(collected.0, collected.1, k);
    AddPackagesInventory(collected.0, collected.1, ProjectReference);
    CollectKeepsItems(d, m, 0, [], PackageReference);
    AddPackagesOrder(collected.0, collected.1);
  }

  /** `RevertAssemblyName` then `RevertRootNamespace`, both against the project name. */
  function RevertNames(d: Document, name: string): Result<Document, Error> {
    var named :- RevertProperty(d, AssemblyNameProperty, name);
    RevertProperty(named, RootNamespaceProperty, name)
  }

  /** What a property that held `values` holds after being reverted against `name`. */
  function Unpinned(values: seq<string>, name: string): seq<string> {
    if values == [name] then [] else values
  }

  /**
   * Reverting both names fails exactly when either does not occur exactly once; on
   * success each is gone if it held the project name, every other property, every item
   * and every empty group stays, and a property group is left.
   */
  lemma RevertNamesFacts(d: Document, name: string, k: ItemKind, other: string)
    ensures RevertNames(d, name).Ok?
        <==> |PropertyValues(d, AssemblyNameProperty)| == 1 && |PropertyValues(d, RootNamespaceProperty)| == 1
    ensures RevertNames(d, name).Ok? ==>
      var r := RevertNames(d, name).value;
      && PropertyValues(r, AssemblyNameProperty) == Unpinned(PropertyValues(d, AssemblyNameProperty), name)
      && PropertyValues(r, RootNamespaceProperty) == Unpinned(PropertyValues(d, RootNamespaceProperty), name)
      && (other != AssemblyNameProperty && other != RootNamespaceProperty ==>
            PropertyValues(r, other) == PropertyValues(d, other))
      && Refs(r, k) == Refs(d, k)
      && EmptyItemGroups(r) == EmptyItemGroups(d)
      && PropertyLists(r) != []
  {
    RevertPropertyFacts(d, AssemblyNameProperty, name, RootNamespaceProperty, k);
    RevertPropertyFacts(d, AssemblyNameProperty, name, other, k);
    var named := RevertProperty(d, AssemblyNameProperty, name);
    if named.Ok? {
      var a := named.value;
      RevertPropertyFacts(a, RootNamespaceProperty, name, AssemblyNameProperty, k);
      RevertPropertyFacts(a, RootNamespaceProperty, name, other, k);
      if RevertNames(d, name).Ok? {
        ValuesNeedLists(PropertyLists(a), RootNamespaceProperty);
      }
    }
  }

  /** Reverting the names leaves every item where it was, attributes and all. */
  lemma RevertNamesKeepsItems(d: Document, name: string, k: ItemKind)
    requires RevertNames(d, name).Ok?
    ensures KindItems(RevertNames(d, name).value, k) == KindItems(d, k)
    ensures FirstGroupEnd(RevertNames(d, name).value, k) == FirstGroupEnd(d, k)
  {
    var named := RevertProperty(d, AssemblyNameProperty, name).value;
    WithoutPropertyKeepsKindItems(d, AssemblyNameProperty, k);
    WithoutPropertyKeepsKindItems(named, RootNamespaceProperty, k);
  }

  /** A property that occurs has a property group to occur in. */
  lemma ValuesNeedLists(lists: seq<seq<Property>>, name: string)
    requires ValuesOfLists(lists, name) != []
    ensures lists != []
    ensures WithoutInLists(lists, name) != []
  {
  }

  /** The pushed document: the four steps of `PushShadow`, in order. */
  function PushDocument(d: Document, project: Project, reg: Registry, root: string, sep: char): Result<Document, Error>
    requires reg.Valid()
  {
    var unnamed :- RevertNames(d, project.Name());
    var reverted :- RevertPackageReferences(unnamed, reg, root, project.relativePath, sep);
    RewriteIncludes(reverted, ProjectReference, ConvertFromShadowToProjectFilePath)
  }

  /**
   * Pushing fails exactly when `AssemblyName` or `RootNamespace` does not occur exactly
   * once, when two projects that build workspace packages are reached by the same path,
   * or when a project reference has no `Include`.
   */
  lemma PushSucceeds(d: Document, project: Project, reg: Registry, root: string, sep: char)
    requires reg.Valid()
    ensures PushDocument(d, project, reg, root, sep).Ok?
        <==> |PropertyValues(d, AssemblyNameProperty)| == 1
             && |PropertyValues(d, RootNamespaceProperty)| == 1
             && ProjectToPackageMap(reg, root, project.relativePath, sep).Ok?
             && None !in Refs(d, ProjectReference)
  {
    RevertNamesFacts(d, project.Name(), ProjectReference, "");
    var unnamed := RevertNames(d, project.Name());
    if unnamed.Ok? {
      RevertPackageReferencesSucceeds(unnamed.value, reg, root, project.relativePath, sep);
      var reverted := RevertPackageReferences(unnamed.value, reg, root, project.relativePath, sep);
      if reverted.Ok? {
        RevertPackageReferencesResult(unnamed.value, reg, root, project.relativePath, sep, ProjectReference);
        var m := ProjectToPackageMap(reg, root, project.relativePath, sep).value;
        UnmappedHasNoNull(Refs(d, ProjectReference), m);
        RewriteIncludesFacts(reverted.value, ProjectReference, ConvertFromShadowToProjectFilePath, PackageReference);
      }
    }
  }

  lemma {:induction false} UnmappedHasNoNull(refs: seq<Option<string>>, m: map<string, PackageDeclaration>)
    requires None !in refs
    ensures None !in Unmapped(refs, m)
  {
    if |refs| > 0 {
      assert refs[0] != None;
      UnmappedHasNoNull(refs[1..], m);
    }
  }

  /**
   * A pushed project, as against the shadow it comes from:
   * - its project references are the shadow's, less those to projects that build
   *   workspace packages, pointed back from shadows to projects, in order;
   * - its package references gain one reference per package those led to, each once;
   * - `AssemblyName` and `RootNamespace` are dropped where they hold the project name;
   * - every other item, every other property and every empty item group is unchanged.
   */
  lemma PushResult(d: Document, project: Project, reg: Registry, root: string, sep: char, k: ItemKind, other: string)
    requires reg.Valid()
    requires PushDocument(d, project, reg, root, sep).Ok?
    ensures var m := ProjectToPackageMap(reg, root, project.relativePath, sep).value;
      var refs := Refs(d, ProjectReference);
      var r := PushDocument(d, project, reg, root, sep).value;
      var items, p := KindItems(d, PackageReference), FirstGroupEnd(d, PackageReference);
      && Refs(r, ProjectReference) == Rewritten(Unmapped(refs, m), ConvertFromShadowToProjectFilePath)
      && multiset(Refs(r, PackageReference))
         == multiset(Refs(d, PackageReference)) + multiset(PackageIds(FirstSeen([], refs, m)))
      && p <= |items|
      && KindItems(r, PackageReference) == items[..p] + PackageRefs(FirstSeen([], refs, m)) + items[p..]
      && (k != PackageReference && k != ProjectReference ==> Refs(r, k) == Refs(d, k))
      && PropertyValues(r, AssemblyNameProperty) == Unpinned(PropertyValues(d, AssemblyNameProperty), project.Name())
      && PropertyValues(r, RootNamespaceProperty) == Unpinned(PropertyValues(d, RootNamespaceProperty), project.Name())
      && (other != AssemblyNameProperty && other != RootNamespaceProperty ==>
            PropertyValues(r, other) == PropertyValues(d, other))
      && EmptyItemGroups(r) == EmptyItemGroups(d)
  {
    var name := project.Name();
    var current := project.relativePath;
    RevertNamesFacts(d, name, k, other);
    RevertNamesFacts(d, name, ProjectReference, other);
    RevertNamesFacts(d, name, PackageReference, other);
    var unnamed := RevertNames(d, name).value;
    RevertPackageReferencesResult(unnamed, reg, root, current, sep, k);
    var reverted := RevertPackageReferences(unnamed, reg, root, current, sep).value;
    RewriteIncludesFacts(reverted, ProjectReference, ConvertFromShadowToProjectFilePath, k);
    RewriteIncludesFacts(reverted, ProjectReference, ConvertFromShadowToProjectFilePath, PackageReference);
    RevertNamesKeepsItems(d, name, PackageReference);
    RewriteKeepsItems(reverted, ProjectReference, ConvertFromShadowToProjectFilePath, PackageReference);
  }

  // ---------------------------------------------------------------------------
  // The service, editing the loaded document in place
  // ---------------------------------------------------------------------------

  /** `RevertAssemblyName` / `RevertRootNamespace` on the loaded document. */
  method RevertPropertyIn(doc: XmlProject, name: string, projectName: string) returns (o: Outcome<Error>)
    modifies doc
    ensures o.Pass? <==> RevertProperty(old(doc.root), name, projectName).Ok?
    ensures o.Pass? ==> doc.root == RevertProperty(old(doc.root), name, projectName).value
    ensures o.Fail? ==> o.error == RevertProperty(old(doc.root), name, projectName).error
  {
    var values := PropertyValues(doc.root, name);
    if |values| == 0 {
      return Fail(MissingElement(name));
    }
    if |values| > 1 {
      return Fail(MultipleElements(name));
    }
    if values[0] == projectName {
      doc.RemoveSingleProperty(name);
    }
    return Pass;
  }

  /** `GetProjectToNugetMap`: the loop over the declarations and, inside, over their projects. */
  method ProjectToPackageMapOf(reg: Registry, root: string, current: string, sep: char)
    returns (r: Result<map<string, PackageDeclaration>, Error>)
    requires reg.Valid()
    ensures r == ProjectToPackageMap(reg, root, current, sep)
  {
    r := MapPackagesIn(reg.keys, reg.entries, PathOf(root, current, sep));
  }

  /** The outer loop, over the declarations in the registry's order. */
  method MapPackagesIn(keys: seq<string>, entries: map<string, PackageDeclaration>, pathOf: Project -> string)
    returns (r: Result<map<string, PackageDeclaration>, Error>)
    requires forall k :: k in keys ==> k in entries
    ensures r == MapPackages(map[], keys, entries, pathOf)
  {
    var m: map<string, PackageDeclaration> := map[];
    var i := 0;
    assert keys[0..] == keys;
    while i < |keys|
      invariant i <= |keys|
      invariant MapPackages(map[], keys, entries, pathOf) == MapPackages(m, keys[i..], entries, pathOf)
    {
      var decl := entries[keys[i]];
      var next := MapOwnersIn(m, decl.projects, decl, pathOf);
      MapPackagesNext(m, keys, entries, pathOf, i);
      if next.Err? {
        return Err(next.error);
      }
      m := next.value;
      i := i + 1;
    }
    return Ok(m);
  }

  /** One step of the outer loop: the owners of the declaration at `keys[i]`, then the rest. */
  lemma MapPackagesNext(m: map<string, PackageDeclaration>, keys: seq<string>, entries: map<string, PackageDeclaration>,
                        pathOf: Project -> string, i: nat)
    requires i < |keys| && forall k :: k in keys ==> k in entries
    ensures var step := MapOwners(m, entries[keys[i]].projects, entries[keys[i]], pathOf);
      && (step.Err? ==> MapPackages(m, keys[i..], entries, pathOf) == Err(step.error))
      && (step.Ok? ==> MapPackages(m, keys[i..], entries, pathOf) == MapPackages(step.value, keys[i + 1..], entries, pathOf))
  {
    var rest := keys[i..];
    assert rest[0] == keys[i] && rest[1..] == keys[i + 1..];
  }

  /** The inner loop: each owner's path is added, failing on the first path already present. */
  method MapOwnersIn(m0: map<string, PackageDeclaration>, owners: seq<Project>, decl: PackageDeclaration,
                     pathOf: Project -> string)
    returns (r: Result<map<string, PackageDeclaration>, Error>)
    ensures r == MapOwners(m0, owners, decl, pathOf)
  {
    var m := m0;
    var j := 0;
    assert owners[0..] == owners;
    while j < |owners|
      invariant j <= |owners|
      invariant MapOwners(m0, owners, decl, pathOf) == MapOwners(m, owners[j..], decl, pathOf)
    {
      assert owners[j..][0] == owners[j] && owners[j..][1..] == owners[j + 1..];
      var path := pathOf(owners[j]);
      if path in m {
        return Err(DuplicateKey(path));
      }
      m := m[path := decl];
      j := j + 1;
    }
    assert owners[j..] == [];
    return Ok(m);
  }

  /** `AddPackageReference` on the loaded document. */
  method AddPackageReferenceTo(doc: XmlProject, item: Item) returns (o: Outcome<Error>)
    modifies doc
    ensures o.Pass? <==> AddPackageReference(old(doc.root), item).Ok?
    ensures o.Pass? ==> doc.root == AddPackageReference(old(doc.root), item).value
    ensures o.Fail? ==> o.error == AddPackageReference(old(doc.root), item).error && doc.root == old(doc.root)
  {
    if |Refs(doc.root, PackageReference)| > 0 {
      var loc := Locate(doc.root, PackageReference, 0);
      doc.AddToGroup(loc.0, item);
      return Pass;
    }
    var lastGroup := LastGroup(doc.root, ProjectReference);
    if lastGroup.Some? {
      doc.AddGroupAfter(lastGroup.value, item);
      return Pass;
    }
    var last := LastPropertyGroup(doc.root);
    if last.None? {
      return Fail(MissingElement(PropertyGroupElement));
    }
    doc.AddGroupAfter(last.value, item);
    return Pass;
  }

  /**
   * `RevertPackageReferences` on the loaded document: the map, the loop over the project
   * references found on entry, then the loop adding the collected packages.
   */
  method RevertPackageReferencesIn(doc: XmlProject, reg: Registry, root: string, current: string, sep: char)
    returns (o: Outcome<Error>)
    requires reg.Valid()
    modifies doc
    ensures var spec := RevertPackageReferences(old(doc.root), reg, root, current, sep);
      && (o.Pass? <==> spec.Ok?)
      && (o.Pass? ==> doc.root == spec.value)
      && (o.Fail? ==> o.error == spec.error)
  {
    var mapped := ProjectToPackageMapOf(reg, root, current, sep);
    if mapped.Err? {
      return Fail(mapped.error);
    }
    var packagesToAdd;
    o, packagesToAdd := CollectIn(doc, mapped.value);
    if o.Fail? {
      return;
    }
    o := AddPackagesIn(doc, packagesToAdd);
  }

  /**
   * The loop over the project references found on entry: those the map knows are removed
   * and their packages collected, each once.
   */
  method CollectIn(doc: XmlProject, m: map<string, PackageDeclaration>)
    returns (o: Outcome<Error>, packagesToAdd: seq<PackageDeclaration>)
    modifies doc
    ensures var spec := CollectFrom(old(doc.root), m, 0, []);
      && (o.Pass? <==> spec.Ok?)
      && (o.Pass? ==> doc.root == spec.value.0 && packagesToAdd == spec.value.1)
      && (o.Fail? ==> o.error == spec.error)
  {
    packagesToAdd := [];
    var u := 0;
    while u < |Refs(doc.root, ProjectReference)|
      invariant u <= |Refs(doc.root, ProjectReference)|
      invariant CollectFrom(old(doc.root), m, 0, []) == CollectFrom(doc.root, m, u, packagesToAdd)
      decreases |Refs(doc.root, ProjectReference)| - u
    {
      CollectStep(doc.root, m, u, packagesToAdd);
      var loc := Locate(doc.root, ProjectReference, u);
      var attr := doc.root[loc.0].items[loc.1].includeAttr;
      if attr.None? {
        return Fail(NullReference("Include")), packagesToAdd;
      }
      if attr.value in m {
        RemoveNthRef(doc.root, ProjectReference, u, true);
        doc.RemoveItemAt(loc.0, loc.1, true);
        packagesToAdd := Collected(packagesToAdd, m[attr.value]);
      } else {
        u := u + 1;
      }
    }
    return Pass, packagesToAdd;
  }

  /** `foreach (var package in packagesToAdd) AddPackageReference(...)`. */
  method AddPackagesIn(doc: XmlProject, packages: seq<PackageDeclaration>) returns (o: Outcome<Error>)
    modifies doc
    ensures var spec := AddPackages(old(doc.root), packages);
      && (o.Pass? <==> spec.Ok?)
      && (o.Pass? ==> doc.root == spec.value)
      && (o.Fail? ==> o.error == spec.error)
  {
    var i := 0;
    assert packages[0..] == packages;
    while i < |packages|
      invariant i <= |packages|
      invariant AddPackages(old(doc.root), packages) == AddPackages(doc.root, packages[i..])
    {
      assert packages[i..][0] == packages[i] && packages[i..][1..] == packages[i + 1..];
      var added := AddPackageReferenceTo(doc, PackageRef(packages[i]));
      if added.Fail? {
        return added;
      }
      i := i + 1;
    }
    assert packages[i..] == [];
    return Pass;
  }

  /** The four edits of `PushShadow`, in order, on the loaded document. */
  method PushDocumentIn(doc: XmlProject, project: Project, reg: Registry, root: string, sep: char)
    returns (o: Outcome<Error>)
    requires reg.Valid()
    modifies doc
    ensures var spec := PushDocument(old(doc.root), project, reg, root, sep);
      && (o.Pass? <==> spec.Ok?)
      && (o.Pass? ==> doc.root == spec.value)
      && (o.Fail? ==> o.error == spec.error)
  {
    o := RevertPropertyIn(doc, AssemblyNameProperty, project.Name());
    if o.Fail? {
      return;
    }
    o := RevertPropertyIn(doc, RootNamespaceProperty, project.Name());
    if o.Fail? {
      return;
    }
    o := RevertPackageReferencesIn(doc, reg, root, project.relativePath, sep);
    if o.Fail? {
      return;
    }
    o := RewriteAll(doc, ProjectReference, ConvertFromShadowToProjectFilePath);
  }

  /**
   * `ShadowProjectPushService.PushShadow`: argument checks, the shadow read from next to
   * the project, the document reverted, and the project file overwritten.  The result is
   * the project's root-relative path; nothing is written when any step throws.
   */
  method PushShadow(aggregator: Option<AggregatorView>, csProject: Option<Project>, files: ProjectFiles, sep: char)
    returns (r: Result<string, Error>)
    requires aggregator.Some? ==> aggregator.value.packageDeclarations.Valid()
    modifies files
    ensures csProject.None? ==> r == Err(NullArgument("csProject"))
    ensures csProject.Some? && aggregator.None? ==> r == Err(NullArgument("aggregator"))
    ensures csProject.Some? && aggregator.Some? && aggregator.value.rootPath.None? ==> r == Err(NullArgument("path1"))
    ensures csProject.Some? && aggregator.Some? && aggregator.value.rootPath.Some? ==>
      var root := aggregator.value.rootPath.value;
      var project := csProject.value;
      var shadow := Combine(root, ConvertToShadowProjectFilePath(project.relativePath));
      if shadow !in old(files.files) then r == Err(FileNotFound(shadow))
      else
        var spec := PushDocument(old(files.files)[shadow], project, aggregator.value.packageDeclarations, root, sep);
        if spec.Err? then r == Err(spec.error)
        else r == Ok(project.relativePath) && files.files == old(files.files)[Combine(root, project.relativePath) := spec.value]
    ensures r.Err? ==> files.files == old(files.files)
  {
    if csProject.None? {
      return Err(NullArgument("csProject"));
    }
    if aggregator.None? {
      return Err(NullArgument("aggregator"));
    }
    var project := csProject.value;
    var shadowPath := ConvertToShadowProjectFilePath(project.relativePath);
    if aggregator.value.rootPath.None? {
      return Err(NullArgument("path1"));
    }
    var root := aggregator.value.rootPath.value;
    var loaded := files.Load(Combine(root, shadowPath));
    if loaded.Err? {
      return Err(loaded.error);
    }
    var doc := new XmlProject(loaded.value);
    var o := PushDocumentIn(doc, project, aggregator.value.packageDeclarations, root, sep);
    if o.Fail? {
      return Err(o.error);
    }
    files.Save(Combine(root, project.relativePath), doc.root);
    return Ok(project.relativePath);
  }
}
