/**
 * Generating the shadow of a project file.  The project document is loaded, its
 * project references are pointed at shadow projects, every package reference to a
 * package built inside the workspace is replaced by project references to the shadows
 * of the projects that build it, `RootNamespace` and `AssemblyName` are pinned to the
 * project name, and the result is written next to the original as `X.Shadow.csproj`.
 *
 * The same pipeline exists twice in the source: in the generate service and, with two
 * small differences, in the legacy aggregator; `Variant` names the difference.
 */
module ShadowGenerate {
  import opened Wrappers
  import opened Errors
  import opened Text
  import opened Paths
  import opened ShadowPaths
  import opened Models
  import opened ProjectDocument
  import opened PackageRegistry
  import opened IncludeRewrite

  const RootNamespaceProperty: string := "RootNamespace"
  const AssemblyNameProperty: string := "AssemblyName"
  const PropertyGroupElement: string := "PropertyGroup"

  /**
   * Where the service and the legacy aggregator part ways when converting a package
   * reference: only the service removes an item group the removal leaves without
   * children, and only the service rewrites '\' to '/' in the paths it adds.
   */
  datatype Variant = Service | Legacy {
    predicate DropsEmptyGroups() {
      Service?
    }

    predicate NormalisesSeparators() {
      Service?
    }
  }

  /** `<ProjectReference Include="path" />`. */
  function ProjectRef(path: string): Item {
    Item(ProjectReference, Some(path), None)
  }

  /**
   * The `Include` written for an owner of a package: the path from the directory of the
   * current project to the owner's shadow, both under the root, with '\' turned into
   * '/' by the service.
   */
  function OwnerReferencePath(root: string, current: string, owner: Project, sep: char, variant: Variant): string {
    var p := ReferencePath(root, current, ConvertToShadowProjectFilePath(owner.relativePath), sep);
    if variant.NormalisesSeparators() then ReplaceAll(p, "\\", "/") else p
  }

  /** The owner reference as a function of the owner, for the project at `current`. */
  function OwnerRef(root: string, current: string, sep: char, variant: Variant): Project -> string {
    owner => OwnerReferencePath(root, current, owner, sep, variant)
  }

  /** The references the owners contribute, one per owner, in order. */
  function OwnerRefs(owners: seq<Project>, refOf: Project -> string): (r: seq<Option<string>>)
    ensures |r| == |owners|
  {
    if |owners| == 0 then []
    else [Some(refOf(owners[0]))] + OwnerRefs(owners[1..], refOf)
  }

  /**
   * A project reference can be placed: the document already has one (the new one joins
   * its group) or has a property group (a new group follows the last of them).
   */
  predicate HasAnchor(d: Document) {
    |Refs(d, ProjectReference)| > 0 || PropertyLists(d) != []
  }

  // ---------------------------------------------------------------------------
  // AddProjectReference
  // ---------------------------------------------------------------------------

  /**
   * `AddProjectReference`: into the group of the first project reference; failing that,
   * into a new item group right after the last property group; failing that, `Last()`
   * throws.
   */
  function AddProjectReference(d: Document, path: string): Result<Document, Error> {
    if |Refs(d, ProjectReference)| > 0 then
      var loc := Locate(d, ProjectReference, 0);
      Ok(AppendToGroup(d, loc.0, ProjectRef(path)))
    else match LastPropertyGroup(d)
      case Some(l) => Ok(InsertGroupAfter(d, l, ProjectRef(path)))
      case None => Err(MissingElement(PropertyGroupElement))
  }

  lemma PropertyGroupLists(d: Document, l: nat)
    requires l < |d| && d[l].PropertyGroup?
    ensures PropertyLists(d) != []
  {
    PropertiesAround(d, l);
  }

  lemma NoPropertyGroupLists(d: Document)
    requires forall i :: 0 <= i < |d| ==> !d[i].PropertyGroup?
    ensures PropertyLists(d) == []
  {
    NoPropertiesBefore(d, |d|);
    assert d[..|d|] == d;
  }

  /**
   * Adding a project reference fails exactly when there is no anchor for it; otherwise
   * the new `Include` joins the project references, nothing else changes, and no empty
   * item group appears or disappears.  `AddProjectReferenceFacts` adds where it goes.
   */
  lemma AddProjectReferenceInventory(d: Document, path: string, k: ItemKind)
    ensures AddProjectReference(d, path).Err? <==> !HasAnchor(d)
    ensures AddProjectReference(d, path).Err? ==> AddProjectReference(d, path).error == MissingElement(PropertyGroupElement)
    ensures AddProjectReference(d, path).Ok? ==>
      var r := AddProjectReference(d, path).value;
      multiset(Refs(r, ProjectReference)) == multiset(Refs(d, ProjectReference)) + multiset{Some(path)}
      && (k != ProjectReference ==> Refs(r, k) == Refs(d, k))
      && PropertyLists(r) == PropertyLists(d)
      && EmptyItemGroups(r) == EmptyItemGroups(d)
  {
    var item := ProjectRef(path);
    RefsInSingleton(item, ProjectReference);
    if |Refs(d, ProjectReference)| > 0 {
      var loc := Locate(d, ProjectReference, 0);
      AppendToGroupRefs(d, loc.0, item, ProjectReference);
      AppendToGroupRefs(d, loc.0, item, k);
      AppendToGroupKeepsProperties(d, loc.0, item);
      AppendToGroupEmptyGroups(d, loc.0, item);
    } else {
      match LastPropertyGroup(d)
      case Some(l) =>
        PropertyGroupLists(d, l);
        InsertGroupAfterRefs(d, l, item, ProjectReference);
        InsertGroupAfterRefs(d, l, item, k);
        InsertGroupAfterKeepsProperties(d, l, item);
        InsertGroupAfterEmptyGroups(d, l, item);
      case None =>
        NoPropertyGroupLists(d);
    }
  }

  /** Appending to the first group of project references makes it one longer. */
  lemma AppendToFirstGroup(d: Document, path: string)
    requires Refs(d, ProjectReference) != []
    ensures var i := Locate(d, ProjectReference, 0).0;
      var r := AppendToGroup(d, i, ProjectRef(path));
      var refs, p := Refs(d, ProjectReference), FirstGroupEnd(d, ProjectReference);
      Refs(r, ProjectReference) == refs[..p] + [Some(path)] + refs[p..]
      && FirstGroupEnd(r, ProjectReference) == p + 1
  {
    var i := Locate(d, ProjectReference, 0).0;
    var item := ProjectRef(path);
    var r := AppendToGroup(d, i, item);
    LocateFirstGroup(d, ProjectReference);
    FirstGroupAt(d, i, ProjectReference);
    RefsInAppend(d[i].items, [item], ProjectReference);
    RefsInSingleton(item, ProjectReference);
    assert r[..i] == d[..i] && r[i + 1..] == d[i + 1..];
    FirstGroupAt(r, i, ProjectReference);
    InsertAfterGroup(Refs(d, ProjectReference), ElementRefs(d[i], ProjectReference), Refs(d[i + 1..], ProjectReference),
                     Some(path), Refs(r, ProjectReference));
  }

  /** Without project references, the new group after element l is the first and only one. */
  lemma InsertFirstGroup(d: Document, l: nat, path: string)
    requires l < |d| && Refs(d, ProjectReference) == []
    ensures var r := InsertGroupAfter(d, l, ProjectRef(path));
      Refs(r, ProjectReference) == [Some(path)] && FirstGroupEnd(r, ProjectReference) == 1
  {
    var item, k := ProjectRef(path), ProjectReference;
    var a, g, t := d[..l + 1], ItemGroup([item]), d[l + 1..];
    var r := InsertGroupAfter(d, l, item);
    RefsSplit(d, l + 1, k);
    assert Refs(a, k) == [] && Refs(t, k) == [];
    RefsInSingleton(item, k);
    assert ElementRefs(g, k) == [Some(path)];
    InsertElementRefs(a, g, t, k);
    assert r == a + [g] + t;
    ConcatAssoc(a, [g], t);
    FirstGroupEndAppend(a, [g] + t, k);
    FirstGroupHead([g] + t, k);
  }

  /**
   * The new reference lands right after the first group of project references, which
   * grows by one; with none, it starts that group.
   */
  lemma AddProjectReferenceOrder(d: Document, path: string)
    requires AddProjectReference(d, path).Ok?
    ensures var r := AddProjectReference(d, path).value;
      var refs, p := Refs(d, ProjectReference), FirstGroupEnd(d, ProjectReference);
      Refs(r, ProjectReference) == refs[..p] + [Some(path)] + refs[p..]
      && FirstGroupEnd(r, ProjectReference) == p + 1
  {
    if Refs(d, ProjectReference) != [] {
      AppendToFirstGroup(d, path);
    } else {
      InsertFirstGroup(d, LastPropertyGroup(d).value, path);
    }
  }

  /**
   * Where `AddProjectReference` puts the new item: last in the item group that holds the
   * first project reference, every other element unchanged; with no project reference,
   * alone in a new item group inserted right after the last property group.
   */
  lemma AddProjectReferencePlacement(d: Document, path: string)
    requires AddProjectReference(d, path).Ok?
    ensures var r := AddProjectReference(d, path).value;
      Refs(d, ProjectReference) != [] ==>
        exists i :: 0 <= i < |d| && Refs(d[..i], ProjectReference) == [] && ElementRefs(d[i], ProjectReference) != []
          && |r| == |d| && r[i] == ItemGroup(d[i].items + [ProjectRef(path)])
          && forall m :: 0 <= m < |d| && m != i ==> r[m] == d[m]
    ensures var r := AddProjectReference(d, path).value;
      Refs(d, ProjectReference) == [] ==>
        exists l :: 0 <= l < |d| && d[l].PropertyGroup? && (forall m :: l < m < |d| ==> !d[m].PropertyGroup?)
          && r[..l + 1] == d[..l + 1] && r[l + 1] == ItemGroup([ProjectRef(path)]) && r[l + 2..] == d[l + 1..]
  {
    if Refs(d, ProjectReference) != [] {
      var i := Locate(d, ProjectReference, 0).0;
      LocateFirstGroup(d, ProjectReference);
      var r := AddProjectReference(d, path).value;
      assert r[i] == ItemGroup(d[i].items + [ProjectRef(path)]);
    } else {
      var l := LastPropertyGroup(d).value;
      var r := AddProjectReference(d, path).value;
      assert r[..l + 1] == d[..l + 1] && r[l + 1] == ItemGroup([ProjectRef(path)]) && r[l + 2..] == d[l + 1..];
    }
  }

  /** Adding a reference for each owner, in order. */
  function AddOwners(d: Document, owners: seq<Project>, refOf: Project -> string): Result<Document, Error>
    decreases |owners|
  {
    if |owners| == 0 then Ok(d)
    else
      var next :- AddProjectReference(d, refOf(owners[0]));
      AddOwners(next, owners[1..], refOf)
  }

  /**
   * Adding the owners fails exactly when there is at least one and no anchor; otherwise
   * the project references gain one reference per owner and nothing else changes.
   */
  lemma {:induction false} AddOwnersInventory(d: Document, owners: seq<Project>, refOf: Project -> string, k: ItemKind)
    ensures AddOwners(d, owners, refOf).Ok? <==> owners == [] || HasAnchor(d)
    ensures AddOwners(d, owners, refOf).Err? ==>
      AddOwners(d, owners, refOf).error == MissingElement(PropertyGroupElement)
    ensures AddOwners(d, owners, refOf).Ok? ==>
      var r := AddOwners(d, owners, refOf).value;
      multiset(Refs(r, ProjectReference))
        == multiset(Refs(d, ProjectReference)) + multiset(OwnerRefs(owners, refOf))
      && (k != ProjectReference ==> Refs(r, k) == Refs(d, k))
      && PropertyLists(r) == PropertyLists(d)
      && EmptyItemGroups(r) == EmptyItemGroups(d)
      && (owners != [] ==> |Refs(r, ProjectReference)| > 0)
    decreases |owners|
  {
    if |owners| > 0 {
      var path := refOf(owners[0]);
      AddProjectReferenceInventory(d, path, k);
      if HasAnchor(d) {
        var next := AddProjectReference(d, path).value;
        AddOwnersInventory(next, owners[1..], refOf, k);
        assert |Refs(next, ProjectReference)| > 0 by {
          assert Some(path) in multiset(Refs(next, ProjectReference));
        }
        assert OwnerRefs(owners, refOf)
            == [Some(path)] + OwnerRefs(owners[1..], refOf);
      }
    }
  }

  /**
   * The owners' references land, in the owners' order, right after the first group of
   * project references, which grows by one per owner.
   */
  lemma {:induction false} AddOwnersOrder(d: Document, owners: seq<Project>, refOf: Project -> string)
    requires AddOwners(d, owners, refOf).Ok?
    ensures var r := AddOwners(d, owners, refOf).value;
      var refs, p := Refs(d, ProjectReference), FirstGroupEnd(d, ProjectReference);
      Refs(r, ProjectReference) == refs[..p] + OwnerRefs(owners, refOf) + refs[p..]
      && FirstGroupEnd(r, ProjectReference) == p + |owners|
    decreases |owners|
  {
    var refs, p := Refs(d, ProjectReference), FirstGroupEnd(d, ProjectReference);
    if |owners| == 0 {
      assert refs[..p] + [] + refs[p..] == refs;
    } else {
      var path := refOf(owners[0]);
      var next := AddProjectReference(d, path).value;
      var r := AddOwners(next, owners[1..], refOf).value;
      assert AddOwners(d, owners, refOf).value == r;
      AddProjectReferenceOrder(d, path);
      AddOwnersOrder(next, owners[1..], refOf);
      OwnerRefsCons(owners, refOf);
      OwnersOrderStep(refs, p, Some(path), OwnerRefs(owners[1..], refOf), Refs(next, ProjectReference), Refs(r, ProjectReference),
        FirstGroupEnd(next, ProjectReference), FirstGroupEnd(r, ProjectReference), |owners| - 1);
    }
  }

  lemma OwnersOrderStep(refs: seq<Option<string>>, p: nat, x: Option<string>, rest: seq<Option<string>>,
                        mid: seq<Option<string>>, fin: seq<Option<string>>, pMid: nat, pFin: nat, n: nat)
    requires p <= |refs| && mid == refs[..p] + [x] + refs[p..] && pMid == p + 1
    requires fin == mid[..pMid] + rest + mid[pMid..] && pFin == pMid + n
    ensures fin == refs[..p] + ([x] + rest) + refs[p..] && pFin == p + (n + 1)
  {
    InsertAfterInserted(refs, p, [x], rest, mid, fin);
  }

  lemma OwnerRefsCons(owners: seq<Project>, refOf: Project -> string)
    requires |owners| > 0
    ensures OwnerRefs(owners, refOf) == [Some(refOf(owners[0]))] + OwnerRefs(owners[1..], refOf)
  {
  }

  /**
   * Adding a project reference fails exactly when there is no anchor for it; otherwise
   * the new `Include` lands right after the first group of project references, nothing
   * else changes, and no empty item group appears or disappears.
   */
  lemma AddProjectReferenceFacts(d: Document, path: string, k: ItemKind)
    ensures AddProjectReference(d, path).Err? <==> !HasAnchor(d)
    ensures AddProjectReference(d, path).Err? ==> AddProjectReference(d, path).error == MissingElement(PropertyGroupElement)
    ensures AddProjectReference(d, path).Ok? ==>
      var r := AddProjectReference(d, path).value;
      var refs, p := Refs(d, ProjectReference), FirstGroupEnd(d, ProjectReference);
      && Refs(r, ProjectReference) == refs[..p] + [Some(path)] + refs[p..]
      && (k != ProjectReference ==> Refs(r, k) == Refs(d, k) && KindItems(r, k) == KindItems(d, k))
      && PropertyLists(r) == PropertyLists(d)
      && EmptyItemGroups(r) == EmptyItemGroups(d)
  {
    AddProjectReferenceInventory(d, path, k);
    if AddProjectReference(d, path).Ok? {
      AddProjectReferenceOrder(d, path);
      if k != ProjectReference {
        AddProjectReferenceKeepsItems(d, path, k);
      }
    }
  }

  /** A new project reference leaves the items of every other kind as they were, attributes and all. */
  lemma AddProjectReferenceKeepsItems(d: Document, path: string, k: ItemKind)
    requires k != ProjectReference && AddProjectReference(d, path).Ok?
    ensures KindItems(AddProjectReference(d, path).value, k) == KindItems(d, k)
  {
    if |Refs(d, ProjectReference)| > 0 {
      AppendToGroupOtherItems(d, Locate(d, ProjectReference, 0).0, ProjectRef(path), k);
    } else {
      InsertGroupAfterOtherItems(d, LastPropertyGroup(d).value, ProjectRef(path), k);
    }
  }

  /** Neither do the owners' references together. */
  lemma {:induction false} AddOwnersKeepsItems(d: Document, owners: seq<Project>, refOf: Project -> string, k: ItemKind)
    requires k != ProjectReference && AddOwners(d, owners, refOf).Ok?
    ensures KindItems(AddOwners(d, owners, refOf).value, k) == KindItems(d, k)
    decreases |owners|
  {
    if |owners| > 0 {
      var next := AddProjectReference(d, refOf(owners[0])).value;
      AddProjectReferenceKeepsItems(d, refOf(owners[0]), k);
      AddOwnersKeepsItems(next, owners[1..], refOf, k);
    }
  }

  /**
   * Adding the owners fails exactly when there is at least one and no anchor; otherwise
   * their references land, in the owners' order, right after the first group of project
   * references, and nothing else changes.
   */
  lemma AddOwnersFacts(d: Document, owners: seq<Project>, refOf: Project -> string, k: ItemKind)
    ensures AddOwners(d, owners, refOf).Ok? <==> owners == [] || HasAnchor(d)
    ensures AddOwners(d, owners, refOf).Err? ==>
      AddOwners(d, owners, refOf).error == MissingElement(PropertyGroupElement)
    ensures AddOwners(d, owners, refOf).Ok? ==>
      var r := AddOwners(d, owners, refOf).value;
      var refs, p := Refs(d, ProjectReference), FirstGroupEnd(d, ProjectReference);
      && Refs(r, ProjectReference) == refs[..p] + OwnerRefs(owners, refOf) + refs[p..]
      && (k != ProjectReference ==> Refs(r, k) == Refs(d, k) && KindItems(r, k) == KindItems(d, k))
      && PropertyLists(r) == PropertyLists(d)
      && EmptyItemGroups(r) == EmptyItemGroups(d)
  {
    AddOwnersInventory(d, owners, refOf, k);
    if AddOwners(d, owners, refOf).Ok? {
      AddOwnersOrder(d, owners, refOf);
      if k != ProjectReference {
        AddOwnersKeepsItems(d, owners, refOf, k);
      }
    }
  }

  // ---------------------------------------------------------------------------
  // ConvertPackageReferences
  // ---------------------------------------------------------------------------

  /** The reference is to a package some project of the workspace builds. */
  predicate Internal(x: Option<string>, packages: map<string, PackageDeclaration>) {
    x.Some? && x.value in packages
  }

  /** The package references that stay: those to packages built outside the workspace. */
  function External(refs: seq<Option<string>>, packages: map<string, PackageDeclaration>): seq<Option<string>> {
    if |refs| == 0 then []
    else (if Internal(refs[0], packages) then [] else [refs[0]]) + External(refs[1..], packages)
  }

  /** The package reference items that stay, attributes and all: those to packages built outside the workspace. */
  function ExternalItems(items: seq<Item>, packages: map<string, PackageDeclaration>): seq<Item> {
    if |items| == 0 then []
    else (if Internal(items[0].includeAttr, packages) then [] else [items[0]]) + ExternalItems(items[1..], packages)
  }

  /** The items that stay carry exactly the references that stay. */
  lemma {:induction false} ExternalItemsIncludes(items: seq<Item>, packages: map<string, PackageDeclaration>)
    ensures Includes(ExternalItems(items, packages)) == External(Includes(items), packages)
  {
    if |items| > 0 {
      var head := if Internal(items[0].includeAttr, packages) then [] else [items[0]];
      ExternalItemsIncludes(items[1..], packages);
      IncludesAppend(head, ExternalItems(items[1..], packages));
      assert Includes(items)[1..] == Includes(items[1..]);
    }
  }

  /** The project references that replace the internal package references, in order. */
  function Introduced(refs: seq<Option<string>>, packages: map<string, PackageDeclaration>,
                      refOf: Project -> string): seq<Option<string>>
  {
    if |refs| == 0 then []
    else
      (if Internal(refs[0], packages) then OwnerRefs(packages[refs[0].value].projects, refOf) else [])
      + Introduced(refs[1..], packages, refOf)
  }

  /** Some internal package reference has an owner to add. */
  predicate NeedsAnchor(refs: seq<Option<string>>, packages: map<string, PackageDeclaration>) {
    |refs| > 0
    && ((Internal(refs[0], packages) && |packages[refs[0].value].projects| > 0) || NeedsAnchor(refs[1..], packages))
  }

  /**
   * `ConvertPackageReferences` from the `u`-th package reference on: the package
   * references are visited in document order; one without `Include` throws; one to a
   * package of the workspace is removed (with its group, if the variant drops emptied
   * groups) and a project reference is added for each project that builds the package.
   */
  function ConvertPackageReferencesFrom(d: Document, packages: map<string, PackageDeclaration>,
                       refOf: Project -> string, variant: Variant, u: nat): Result<Document, Error>
    decreases |Refs(d, PackageReference)| - u
  {
    if u >= |Refs(d, PackageReference)| then Ok(d)
    else
      var loc := Locate(d, PackageReference, u);
      var item := d[loc.0].items[loc.1];
      match item.includeAttr
      case None => Err(NullReference("Include"))
      case Some(id) =>
        if id !in packages then ConvertPackageReferencesFrom(d, packages, refOf, variant, u + 1)
        else
          var removed := RemoveItem(d, loc.0, loc.1, variant.DropsEmptyGroups());
          RemoveNthRef(d, PackageReference, u, variant.DropsEmptyGroups());
          var added :- AddOwners(removed, packages[id].projects, refOf);
          AddOwnersInventory(removed, packages[id].projects, refOf, PackageReference);
          ConvertPackageReferencesFrom(added, packages, refOf, variant, u)
  }

  function ConvertPackageReferences(d: Document, packages: map<string, PackageDeclaration>,
                                    refOf: Project -> string, variant: Variant): Result<Document, Error>
  {
    ConvertPackageReferencesFrom(d, packages, refOf, variant, 0)
  }

  /** Removing a package reference leaves the anchor as it was. */
  lemma RemoveItemKeepsAnchor(d: Document, i: nat, j: nat, dropEmpty: bool)
    requires i < |d| && d[i].ItemGroup? && j < |d[i].items| && d[i].items[j].kind == PackageReference
    ensures HasAnchor(RemoveItem(d, i, j, dropEmpty)) == HasAnchor(d)
    ensures PropertyLists(RemoveItem(d, i, j, dropEmpty)) == PropertyLists(d)
    ensures forall k :: k != PackageReference ==> Refs(RemoveItem(d, i, j, dropEmpty), k) == Refs(d, k)
  {
    RemoveItemKeepsProperties(d, i, j, dropEmpty);
    forall k | k != PackageReference
      ensures Refs(RemoveItem(d, i, j, dropEmpty), k) == Refs(d, k)
    {
      RemoveItemOtherRefs(d, i, j, dropEmpty, k);
    }
  }

  lemma DropFirst(s: seq<Option<string>>, u: nat)
    requires u < |s|
    ensures s[u..] == [s[u]] + s[u + 1..]
    ensures s[..u + 1] == s[..u] + [s[u]]
  {
  }

  /** The package reference at (i, j) replaced by references to its owners. */
  function Replace(d: Document, i: nat, j: nat, owners: seq<Project>,
                   refOf: Project -> string, variant: Variant): Result<Document, Error>
    requires i < |d| && d[i].ItemGroup? && j < |d[i].items|
  {
    AddOwners(RemoveItem(d, i, j, variant.DropsEmptyGroups()), owners, refOf)
  }

  /** One step of the conversion, at the `u`-th package reference. */
  lemma ConvertStep(d: Document, packages: map<string, PackageDeclaration>,
                    refOf: Project -> string, variant: Variant, u: nat)
    requires u < |Refs(d, PackageReference)|
    ensures var loc := Locate(d, PackageReference, u);
      var x := Refs(d, PackageReference)[u];
      var result := ConvertPackageReferencesFrom(d, packages, refOf, variant, u);
      && (x.None? ==> result == Err(NullReference("Include")))
      && (x.Some? && x.value !in packages ==> result == ConvertPackageReferencesFrom(d, packages, refOf, variant, u + 1))
      && (Internal(x, packages) ==>
            var added := Replace(d, loc.0, loc.1, packages[x.value].projects, refOf, variant);
            && (added.Err? ==> result == Err(added.error))
            && (added.Ok? ==> result == ConvertPackageReferencesFrom(added.value, packages, refOf, variant, u)))
  {
  }

  /**
   * What replacing the `u`-th package reference does: the package references lose exactly
   * that entry, the anchor can only appear, and the inventory of everything else moves
   * as `AddOwnersInventory` says.
   */
  lemma ReplaceFacts(d: Document, packages: map<string, PackageDeclaration>,
                     refOf: Project -> string, variant: Variant, u: nat, k: ItemKind)
    requires u < |Refs(d, PackageReference)|
    requires Internal(Refs(d, PackageReference)[u], packages)
    ensures var loc := Locate(d, PackageReference, u);
      var owners := packages[Refs(d, PackageReference)[u].value].projects;
      var added := Replace(d, loc.0, loc.1, owners, refOf, variant);
      (added.Ok? <==> owners == [] || HasAnchor(d))
      && (added.Ok? ==>
           var all := Refs(d, PackageReference);
           && Refs(added.value, PackageReference) == all[..u] + all[u + 1..]
           && (HasAnchor(added.value) <==> HasAnchor(d) || owners != [])
           && (k != PackageReference && k != ProjectReference ==> Refs(added.value, k) == Refs(d, k))
           && PropertyLists(added.value) == PropertyLists(d)
           && (variant.DropsEmptyGroups() ==> EmptyItemGroups(added.value) == EmptyItemGroups(d)))
  {
    var loc := Locate(d, PackageReference, u);
    var owners := packages[Refs(d, PackageReference)[u].value].projects;
    var removed := RemoveItem(d, loc.0, loc.1, variant.DropsEmptyGroups());
    RemoveNthFacts(d, u, variant.DropsEmptyGroups());
    AddOwnersInventory(removed, owners, refOf, PackageReference);
    AddOwnersInventory(removed, owners, refOf, k);
  }

  /** Removing the `u`-th package reference: that entry goes, and the anchor, properties and other kinds stay. */
  lemma RemoveNthFacts(d: Document, u: nat, dropEmpty: bool)
    requires u < |Refs(d, PackageReference)|
    ensures var loc := Locate(d, PackageReference, u);
      var removed := RemoveItem(d, loc.0, loc.1, dropEmpty);
      var all := Refs(d, PackageReference);
      && Refs(removed, PackageReference) == all[..u] + all[u + 1..]
      && HasAnchor(removed) == HasAnchor(d)
      && PropertyLists(removed) == PropertyLists(d)
      && (forall k :: k != PackageReference ==> Refs(removed, k) == Refs(d, k))
      && (dropEmpty ==> EmptyItemGroups(removed) == EmptyItemGroups(d))
  {
    var loc := Locate(d, PackageReference, u);
    RemoveNthRef(d, PackageReference, u, dropEmpty);
    RemoveItemKeepsAnchor(d, loc.0, loc.1, dropEmpty);
    RemoveItemEmptyGroups(d, loc.0, loc.1, dropEmpty);
  }

  /**
   * The conversion from the `u`-th package reference on fails exactly when one of the
   * remaining package references has no `Include`, or when one of them must be replaced
   * by project references and there is nowhere to put them.
   */
  lemma {:induction false} ConvertSucceeds(d: Document, packages: map<string, PackageDeclaration>,
                                           refOf: Project -> string, variant: Variant, u: nat)
    requires u <= |Refs(d, PackageReference)|
    ensures var refs := Refs(d, PackageReference)[u..];
      ConvertPackageReferencesFrom(d, packages, refOf, variant, u).Ok?
      <==> None !in refs && (HasAnchor(d) || !NeedsAnchor(refs, packages))
    decreases |Refs(d, PackageReference)| - u, 1
  {
    var all := Refs(d, PackageReference);
    if u < |all| {
      var refs := all[u..];
      DropFirst(all, u);
      assert refs[0] == all[u] && refs[1..] == all[u + 1..];
      var x := all[u];
      if Internal(x, packages) {
        ConvertSucceedsInternal(d, packages, refOf, variant, u);
      } else {
        ConvertStep(d, packages, refOf, variant, u);
        if x.Some? {
          ConvertSucceeds(d, packages, refOf, variant, u + 1);
        }
      }
    }
  }

  lemma {:induction false} ConvertSucceedsInternal(d: Document, packages: map<string, PackageDeclaration>,
                                                   refOf: Project -> string, variant: Variant, u: nat)
    requires u < |Refs(d, PackageReference)|
    requires Internal(Refs(d, PackageReference)[u], packages)
    ensures var refs := Refs(d, PackageReference)[u..];
      ConvertPackageReferencesFrom(d, packages, refOf, variant, u).Ok?
      <==> None !in refs && (HasAnchor(d) || !NeedsAnchor(refs, packages))
    decreases |Refs(d, PackageReference)| - u, 0
  {
    var all := Refs(d, PackageReference);
    var refs := all[u..];
    DropFirst(all, u);
    assert refs[0] == all[u] && refs[1..] == all[u + 1..];
    var x := all[u];
    ConvertStep(d, packages, refOf, variant, u);
    ReplaceFacts(d, packages, refOf, variant, u, PackageReference);
    var loc := Locate(d, PackageReference, u);
    var added := Replace(d, loc.0, loc.1, packages[x.value].projects, refOf, variant);
    if added.Ok? {
      var rest := Refs(added.value, PackageReference);
      assert rest[u..] == all[u + 1..];
      ConvertSucceeds(added.value, packages, refOf, variant, u);
    }
    assert NeedsAnchor(refs, packages) <==> |packages[x.value].projects| > 0 || NeedsAnchor(all[u + 1..], packages);
  }

  /**
   * What a successful walk from the `u`-th package reference on keeps, for the result `r`:
   * - the remaining package references filtered down to the external ones;
   * - every other kind of item and every property group unchanged;
   * - in the service, exactly as many empty item groups as it found.
   */
  predicate Kept(d: Document, r: Document, u: nat, packages: map<string, PackageDeclaration>, variant: Variant, k: ItemKind)
    requires u <= |Refs(d, PackageReference)|
  {
    && Refs(r, PackageReference) == Refs(d, PackageReference)[..u] + External(Refs(d, PackageReference)[u..], packages)
    && (k != PackageReference && k != ProjectReference ==> Refs(r, k) == Refs(d, k))
    && PropertyLists(r) == PropertyLists(d)
    && (variant.DropsEmptyGroups() ==> EmptyItemGroups(r) == EmptyItemGroups(d))
  }

  lemma KeptSkip(d: Document, r: Document, u: nat, packages: map<string, PackageDeclaration>,
                 refOf: Project -> string, variant: Variant, k: ItemKind)
    requires u < |Refs(d, PackageReference)| && !Internal(Refs(d, PackageReference)[u], packages)
    requires Kept(d, r, u + 1, packages, variant, k)
    ensures Kept(d, r, u, packages, variant, k)
  {
    var all := Refs(d, PackageReference);
    SkipExternal(all, u, packages, refOf, variant);
  }

  lemma {:induction false} ConvertInventory(d: Document, packages: map<string, PackageDeclaration>,
                                            refOf: Project -> string, variant: Variant, u: nat, k: ItemKind, r: Document)
    requires u <= |Refs(d, PackageReference)|
    requires ConvertPackageReferencesFrom(d, packages, refOf, variant, u) == Ok(r)
    ensures Kept(d, r, u, packages, variant, k)
    decreases |Refs(d, PackageReference)| - u, 1
  {
    var all := Refs(d, PackageReference);
    var refs := all[u..];
    if u == |all| {
      assert refs == [] && all[..u] + [] == all;
    } else if Internal(all[u], packages) {
      ConvertInventoryInternal(d, packages, refOf, variant, u, k, r);
    } else {
      ConvertSkipStep(d, packages, refOf, variant, u);
      ConvertInventory(d, packages, refOf, variant, u + 1, k, r);
      KeptSkip(d, r, u, packages, refOf, variant, k);
    }
  }

  lemma {:induction false} ConvertInventoryInternal(d: Document, packages: map<string, PackageDeclaration>,
                                                    refOf: Project -> string, variant: Variant, u: nat, k: ItemKind, r: Document)
    requires u < |Refs(d, PackageReference)|
    requires Internal(Refs(d, PackageReference)[u], packages)
    requires ConvertPackageReferencesFrom(d, packages, refOf, variant, u) == Ok(r)
    ensures Kept(d, r, u, packages, variant, k)
    decreases |Refs(d, PackageReference)| - u, 0
  {
    var all := Refs(d, PackageReference);
    var refs := all[u..];
    DropFirst(all, u);
    assert refs[0] == all[u] && refs[1..] == all[u + 1..];
    ConvertStep(d, packages, refOf, variant, u);
    var x := all[u];
    ReplaceFacts(d, packages, refOf, variant, u, k);
    var loc := Locate(d, PackageReference, u);
    var added := Replace(d, loc.0, loc.1, packages[x.value].projects, refOf, variant).value;
    var rest := Refs(added, PackageReference);
    assert rest[..u] == all[..u] && rest[u..] == all[u + 1..];
    ConvertInventory(added, packages, refOf, variant, u, k, r);
    assert External(refs, packages) == External(all[u + 1..], packages);
  }

  /**
   * A successful walk from the `u`-th package reference on keeps the remaining package
   * reference items to packages outside the workspace as they were, `Version` included,
   * and in order.
   */
  lemma {:induction false} ConvertKeepsItems(d: Document, packages: map<string, PackageDeclaration>,
                                             refOf: Project -> string, variant: Variant, u: nat, r: Document)
    requires u <= |Refs(d, PackageReference)|
    requires ConvertPackageReferencesFrom(d, packages, refOf, variant, u) == Ok(r)
    ensures var items := KindItems(d, PackageReference);
      u <= |items| && KindItems(r, PackageReference) == items[..u] + ExternalItems(items[u..], packages)
    decreases |Refs(d, PackageReference)| - u, 1
  {
    var all, items := Refs(d, PackageReference), KindItems(d, PackageReference);
    KindItemsIncludes(d, PackageReference);
    if u == |all| {
      assert items[u..] == [] && items[..u] == items;
    } else if Internal(all[u], packages) {
      ConvertKeepsItemsInternal(d, packages, refOf, variant, u, r);
    } else {
      ConvertSkipStep(d, packages, refOf, variant, u);
      ConvertKeepsItems(d, packages, refOf, variant, u + 1, r);
      SkipExternalItem(items, u, packages);
    }
  }

  lemma {:induction false} ConvertKeepsItemsInternal(d: Document, packages: map<string, PackageDeclaration>,
                                                     refOf: Project -> string, variant: Variant, u: nat, r: Document)
    requires u < |Refs(d, PackageReference)|
    requires Internal(Refs(d, PackageReference)[u], packages)
    requires ConvertPackageReferencesFrom(d, packages, refOf, variant, u) == Ok(r)
    ensures var items := KindItems(d, PackageReference);
      u <= |items| && KindItems(r, PackageReference) == items[..u] + ExternalItems(items[u..], packages)
    decreases |Refs(d, PackageReference)| - u, 0
  {
    var all, items := Refs(d, PackageReference), KindItems(d, PackageReference);
    var x := all[u];
    var loc := Locate(d, PackageReference, u);
    var owners := packages[x.value].projects;
    var removed := RemoveItem(d, loc.0, loc.1, variant.DropsEmptyGroups());
    ConvertStep(d, packages, refOf, variant, u);
    ReplaceFacts(d, packages, refOf, variant, u, PackageReference);
    var added := AddOwners(removed, owners, refOf).value;
    assert Replace(d, loc.0, loc.1, owners, refOf, variant) == Ok(added);
    RemoveNthItem(d, PackageReference, u, variant.DropsEmptyGroups());
    AddOwnersKeepsItems(removed, owners, refOf, PackageReference);
    ConvertKeepsItems(added, packages, refOf, variant, u, r);
    DropInternalItem(items, u, packages);
  }

  /** An item to a package outside the workspace stays where it is. */
  lemma SkipExternalItem(items: seq<Item>, u: nat, packages: map<string, PackageDeclaration>)
    requires u < |items| && !Internal(items[u].includeAttr, packages)
    ensures items[..u] + ExternalItems(items[u..], packages) == items[..u + 1] + ExternalItems(items[u + 1..], packages)
  {
    var rest := items[u..];
    assert rest[0] == items[u] && rest[1..] == items[u + 1..];
    assert items[..u + 1] == items[..u] + [items[u]];
  }

  /** An item to a package of the workspace goes, and the items after it move up one place. */
  lemma DropInternalItem(items: seq<Item>, u: nat, packages: map<string, PackageDeclaration>)
    requires u < |items| && Internal(items[u].includeAttr, packages)
    ensures var rest := items[..u] + items[u + 1..];
      rest[..u] + ExternalItems(rest[u..], packages) == items[..u] + ExternalItems(items[u..], packages)
  {
    var rest := items[..u] + items[u + 1..];
    var tail := items[u..];
    assert tail[0] == items[u] && tail[1..] == items[u + 1..];
    assert rest[..u] == items[..u] && rest[u..] == items[u + 1..];
  }

  /** A converted reference to a package outside the workspace is skipped. */
  lemma ConvertSkipStep(d: Document, packages: map<string, PackageDeclaration>,
                        refOf: Project -> string, variant: Variant, u: nat)
    requires u < |Refs(d, PackageReference)|
    requires !Internal(Refs(d, PackageReference)[u], packages)
    requires ConvertPackageReferencesFrom(d, packages, refOf, variant, u).Ok?
    ensures ConvertPackageReferencesFrom(d, packages, refOf, variant, u)
         == ConvertPackageReferencesFrom(d, packages, refOf, variant, u + 1)
  {
    ConvertStep(d, packages, refOf, variant, u);
  }

  /** An external reference stays where it is and contributes no project reference. */
  lemma SkipExternal(all: seq<Option<string>>, u: nat, packages: map<string, PackageDeclaration>,
                     refOf: Project -> string, variant: Variant)
    requires u < |all| && !Internal(all[u], packages)
    ensures all[..u] + External(all[u..], packages) == all[..u + 1] + External(all[u + 1..], packages)
    ensures Introduced(all[u..], packages, refOf) == Introduced(all[u + 1..], packages, refOf)
  {
    var refs := all[u..];
    DropFirst(all, u);
    assert refs[0] == all[u] && refs[1..] == all[u + 1..];
    assert External(refs, packages) == [all[u]] + External(all[u + 1..], packages);
  }

  /**
   * Where a successful conversion from the `u`-th package reference on puts the project
   * references it introduces: in the order of the package references they replace, right
   * after the first group of project references (which they join), the other project
   * references staying in order around them.
   */
  lemma {:induction false} ConvertOrder(d: Document, packages: map<string, PackageDeclaration>,
                                        refOf: Project -> string, variant: Variant, u: nat)
    requires u <= |Refs(d, PackageReference)|
    requires ConvertPackageReferencesFrom(d, packages, refOf, variant, u).Ok?
    ensures var r := ConvertPackageReferencesFrom(d, packages, refOf, variant, u).value;
      var introduced := Introduced(Refs(d, PackageReference)[u..], packages, refOf);
      var refs, p := Refs(d, ProjectReference), FirstGroupEnd(d, ProjectReference);
      Refs(r, ProjectReference) == refs[..p] + introduced + refs[p..]
      && FirstGroupEnd(r, ProjectReference) == p + |introduced|
    decreases |Refs(d, PackageReference)| - u, 1
  {
    var all := Refs(d, PackageReference);
    if u == |all| {
      ConvertOrderDone(d, packages, refOf, variant, u);
    } else if Internal(all[u], packages) {
      ConvertOrderInternal(d, packages, refOf, variant, u);
    } else {
      ConvertOrderExternal(d, packages, refOf, variant, u);
    }
  }

  /** Past the last package reference, nothing is introduced and nothing moves. */
  lemma ConvertOrderDone(d: Document, packages: map<string, PackageDeclaration>,
                         refOf: Project -> string, variant: Variant, u: nat)
    requires u == |Refs(d, PackageReference)|
    ensures ConvertPackageReferencesFrom(d, packages, refOf, variant, u) == Ok(d)
    ensures var introduced := Introduced(Refs(d, PackageReference)[u..], packages, refOf);
      var refs, p := Refs(d, ProjectReference), FirstGroupEnd(d, ProjectReference);
      Refs(d, ProjectReference) == refs[..p] + introduced + refs[p..]
      && FirstGroupEnd(d, ProjectReference) == p + |introduced|
  {
    var rest := Refs(d, PackageReference)[u..];
    assert rest == [];
    SplitAround(Refs(d, ProjectReference), FirstGroupEnd(d, ProjectReference), Introduced(rest, packages, refOf));
  }

  lemma SplitAround<T>(s: seq<T>, p: nat, mid: seq<T>)
    requires p <= |s| && mid == []
    ensures s == s[..p] + mid + s[p..] && p == p + |mid|
  {
    assert s[..p] + s[p..] == s;
  }

  lemma {:induction false} ConvertOrderExternal(d: Document, packages: map<string, PackageDeclaration>,
                                                refOf: Project -> string, variant: Variant, u: nat)
    requires u < |Refs(d, PackageReference)|
    requires !Internal(Refs(d, PackageReference)[u], packages)
    requires ConvertPackageReferencesFrom(d, packages, refOf, variant, u).Ok?
    ensures var r := ConvertPackageReferencesFrom(d, packages, refOf, variant, u).value;
      var introduced := Introduced(Refs(d, PackageReference)[u..], packages, refOf);
      var refs, p := Refs(d, ProjectReference), FirstGroupEnd(d, ProjectReference);
      Refs(r, ProjectReference) == refs[..p] + introduced + refs[p..]
      && FirstGroupEnd(r, ProjectReference) == p + |introduced|
    decreases |Refs(d, PackageReference)| - u, 0
  {
    var all := Refs(d, PackageReference);
    ConvertSkipStep(d, packages, refOf, variant, u);
    ConvertOrder(d, packages, refOf, variant, u + 1);
    SkipExternal(all, u, packages, refOf, variant);
  }

  lemma {:induction false} ConvertOrderInternal(d: Document, packages: map<string, PackageDeclaration>,
                                                refOf: Project -> string, variant: Variant, u: nat)
    requires u < |Refs(d, PackageReference)|
    requires Internal(Refs(d, PackageReference)[u], packages)
    requires ConvertPackageReferencesFrom(d, packages, refOf, variant, u).Ok?
    ensures var r := ConvertPackageReferencesFrom(d, packages, refOf, variant, u).value;
      var introduced := Introduced(Refs(d, PackageReference)[u..], packages, refOf);
      var refs, p := Refs(d, ProjectReference), FirstGroupEnd(d, ProjectReference);
      Refs(r, ProjectReference) == refs[..p] + introduced + refs[p..]
      && FirstGroupEnd(r, ProjectReference) == p + |introduced|
    decreases |Refs(d, PackageReference)| - u, 0
  {
    var all := Refs(d, PackageReference);
    var refs, p := Refs(d, ProjectReference), FirstGroupEnd(d, ProjectReference);
    ConvertStep(d, packages, refOf, variant, u);
    ReplaceFacts(d, packages, refOf, variant, u, PackageReference);
    ReplaceOrder(d, packages, refOf, variant, u);
    var x := all[u];
    var owners := packages[x.value].projects;
    var loc := Locate(d, PackageReference, u);
    var added := Replace(d, loc.0, loc.1, owners, refOf, variant).value;
    var rest := Refs(added, PackageReference);
    assert rest[u..] == all[u + 1..];
    ConvertOrder(added, packages, refOf, variant, u);
    var r := ConvertPackageReferencesFrom(added, packages, refOf, variant, u).value;
    var mine, later := OwnerRefs(owners, refOf), Introduced(all[u + 1..], packages, refOf);
    IntroducedInternal(all, u, packages, refOf);
    OrderCombine(refs, p, mine, later, Refs(added, ProjectReference), FirstGroupEnd(added, ProjectReference),
                 Refs(r, ProjectReference), FirstGroupEnd(r, ProjectReference), Introduced(all[u..], packages, refOf));
  }

  /** The references one step introduces, followed by those the rest of the walk introduces. */
  lemma OrderCombine<T>(refs: seq<T>, p: nat, mine: seq<T>, later: seq<T>, mid: seq<T>, q: nat,
                        r: seq<T>, rEnd: nat, introduced: seq<T>)
    requires p <= |refs| && mid == refs[..p] + mine + refs[p..] && q == p + |mine|
    requires r == mid[..q] + later + mid[q..] && rEnd == q + |later|
    requires introduced == mine + later
    ensures r == refs[..p] + introduced + refs[p..] && rEnd == p + |introduced|
  {
    InsertAfterInserted(refs, p, mine, later, mid, r);
  }

  /** Replacing the `u`-th package reference puts its owners' references after the first group. */
  lemma ReplaceOrder(d: Document, packages: map<string, PackageDeclaration>,
                     refOf: Project -> string, variant: Variant, u: nat)
    requires u < |Refs(d, PackageReference)|
    requires Internal(Refs(d, PackageReference)[u], packages)
    ensures var loc := Locate(d, PackageReference, u);
      var owners := packages[Refs(d, PackageReference)[u].value].projects;
      var added := Replace(d, loc.0, loc.1, owners, refOf, variant);
      var refs, p := Refs(d, ProjectReference), FirstGroupEnd(d, ProjectReference);
      added.Ok? ==>
        Refs(added.value, ProjectReference) == refs[..p] + OwnerRefs(owners, refOf) + refs[p..]
        && FirstGroupEnd(added.value, ProjectReference) == p + |OwnerRefs(owners, refOf)|
  {
    var loc := Locate(d, PackageReference, u);
    var owners := packages[Refs(d, PackageReference)[u].value].projects;
    var dropEmpty := variant.DropsEmptyGroups();
    var removed := RemoveItem(d, loc.0, loc.1, dropEmpty);
    RemoveItemOtherRefs(d, loc.0, loc.1, dropEmpty, ProjectReference);
    RemoveItemFirstGroup(d, loc.0, loc.1, dropEmpty, ProjectReference);
    if AddOwners(removed, owners, refOf).Ok? {
      AddOwnersOrder(removed, owners, refOf);
    }
  }

  /** An internal reference introduces its owners' references ahead of the later ones. */
  lemma IntroducedInternal(all: seq<Option<string>>, u: nat, packages: map<string, PackageDeclaration>,
                           refOf: Project -> string)
    requires u < |all| && Internal(all[u], packages)
    ensures Introduced(all[u..], packages, refOf)
         == OwnerRefs(packages[all[u].value].projects, refOf) + Introduced(all[u + 1..], packages, refOf)
  {
    var refs := all[u..];
    assert refs[0] == all[u] && refs[1..] == all[u + 1..];
  }

  /**
   * A successful conversion from the `u`-th package reference on:
   * - filters the remaining package references down to the external ones, which keep
   *   their `Version` and every other attribute;
   * - puts the references to the owners' shadows, in the order of the package references
   *   they replace, right after the first group of project references;
   * - leaves every other kind of item and every property group unchanged;
   * - in the service, leaves exactly as many empty item groups as it found.
   */
  lemma ConvertResult(d: Document, packages: map<string, PackageDeclaration>,
                      refOf: Project -> string, variant: Variant, u: nat, k: ItemKind)
    requires u <= |Refs(d, PackageReference)|
    requires ConvertPackageReferencesFrom(d, packages, refOf, variant, u).Ok?
    ensures var refs := Refs(d, PackageReference)[u..];
      var r := ConvertPackageReferencesFrom(d, packages, refOf, variant, u).value;
      var projects, p := Refs(d, ProjectReference), FirstGroupEnd(d, ProjectReference);
      var items := KindItems(d, PackageReference);
      && Refs(r, PackageReference) == Refs(d, PackageReference)[..u] + External(refs, packages)
      && u <= |items| && KindItems(r, PackageReference) == items[..u] + ExternalItems(items[u..], packages)
      && Refs(r, ProjectReference) == projects[..p] + Introduced(refs, packages, refOf) + projects[p..]
      && (k != PackageReference && k != ProjectReference ==> Refs(r, k) == Refs(d, k))
      && PropertyLists(r) == PropertyLists(d)
      && (variant.DropsEmptyGroups() ==> EmptyItemGroups(r) == EmptyItemGroups(d))
  {
    ConvertInventory(d, packages, refOf, variant, u, k, ConvertPackageReferencesFrom(d, packages, refOf, variant, u).value);
    ConvertOrder(d, packages, refOf, variant, u);
    ConvertKeepsItems(d, packages, refOf, variant, u, ConvertPackageReferencesFrom(d, packages, refOf, variant, u).value);
  }

  // ---------------------------------------------------------------------------
  // SetupRootNamespace and SetupAssemblyName
  // ---------------------------------------------------------------------------

  /**
   * `SetupRootNamespace` / `SetupAssemblyName`: `SingleOrDefault` over the properties
   * called `name` throws on two or more; on none, the property is appended to the first
   * property group, and `First()` throws when there is none.
   */
  function SetupProperty(d: Document, name: string, value: string): Result<Document, Error> {
    var values := PropertyValues(d, name);
    if |values| > 1 then Err(MultipleElements(name))
    else if |values| == 1 then Ok(d)
    else match FirstPropertyGroup(d)
      case None => Err(MissingElement(PropertyGroupElement))
      case Some(f) => Ok(AppendProperty(d, f, Property(name, value)))
  }

  lemma SingletonMultiset<T>(s: seq<T>, v: T)
    requires multiset(s) == multiset{v}
    ensures s == [v]
  {
    assert |s| == |multiset(s)| == 1;
    assert s[0] in multiset(s);
  }

  lemma ShortSameMultiset<T>(a: seq<T>, b: seq<T>)
    requires multiset(a) == multiset(b) && |b| <= 1
    ensures a == b
  {
    assert |a| == |multiset(a)| == |multiset(b)| == |b|;
    if |b| == 1 {
      SingletonMultiset(a, b[0]);
    }
  }

  /**
   * Setting up a property fails exactly when it occurs more than once, or not at all in a
   * document without property groups.  On success it occurs exactly once: a present one
   * is left as it was and the document with it; an absent one is appended, with `value`,
   * to the end of the first property group.  Every other property keeps its values, and
   * the item groups are untouched.
   */
  lemma SetupPropertyFacts(d: Document, name: string, value: string, other: string, k: ItemKind)
    ensures var values := PropertyValues(d, name);
      SetupProperty(d, name, value).Err? <==> |values| > 1 || (values == [] && PropertyLists(d) == [])
    ensures var values := PropertyValues(d, name);
      SetupProperty(d, name, value).Err? ==>
      SetupProperty(d, name, value).error == (if |values| > 1 then MultipleElements(name) else MissingElement(PropertyGroupElement))
    ensures var values := PropertyValues(d, name);
      SetupProperty(d, name, value).Ok? ==>
      var r, lists := SetupProperty(d, name, value).value, PropertyLists(d);
      && PropertyValues(r, name) == (if values == [] then [value] else values)
      && (other != name ==> PropertyValues(r, other) == PropertyValues(d, other))
      && (values != [] ==> r == d)
      && lists != [] && PropertyLists(r) == lists[0 := lists[0] + Missing(values, name, value)]
      && Refs(r, k) == Refs(d, k)
      && KindItems(r, k) == KindItems(d, k)
      && EmptyItemGroups(r) == EmptyItemGroups(d)
  {
    FirstPropertyGroupLists(d);
    if SetupProperty(d, name, value).Ok? {
      SetupPropertyResult(d, name, value, other, k, SetupProperty(d, name, value).value);
    }
  }

  /** The success half of `SetupPropertyFacts`, for the result `r`. */
  lemma SetupPropertyResult(d: Document, name: string, value: string, other: string, k: ItemKind, r: Document)
    requires SetupProperty(d, name, value) == Ok(r)
    ensures var values, lists := PropertyValues(d, name), PropertyLists(d);
      && PropertyValues(r, name) == (if values == [] then [value] else values)
      && (other != name ==> PropertyValues(r, other) == PropertyValues(d, other))
      && (values != [] ==> r == d)
      && lists != [] && PropertyLists(r) == lists[0 := lists[0] + Missing(values, name, value)]
      && Refs(r, k) == Refs(d, k)
      && KindItems(r, k) == KindItems(d, k)
      && EmptyItemGroups(r) == EmptyItemGroups(d)
  {
    FirstPropertyGroupLists(d);
    var values, lists := PropertyValues(d, name), PropertyLists(d);
    if values == [] {
      var f := FirstPropertyGroup(d).value;
      var p := Property(name, value);
      assert r == AppendProperty(d, f, p);
      AppendPropertyValues(d, p, name);
      AppendPropertyValues(d, p, other);
      AppendPropertyKeepsItems(d, f, p, k);
      AppendPropertyKeepsKindItems(d, f, p, k);
      SingletonMultiset(PropertyValues(r, name), value);
    } else {
      assert lists != [];
      assert lists[0] + [] == lists[0];
      assert lists[0 := lists[0]] == lists;
    }
  }

  /** What setting up a property appends: the property itself when it was absent, else nothing. */
  function Missing(values: seq<string>, name: string, value: string): seq<Property> {
    if values == [] then [Property(name, value)] else []
  }

  // ---------------------------------------------------------------------------
  // The whole document
  // ---------------------------------------------------------------------------

  /** The shadow document: the four steps of `GenerateShadow`, in order. */
  function GenerateDocument(d: Document, project: Project, packages: map<string, PackageDeclaration>,
                            root: string, sep: char, variant: Variant): Result<Document, Error>
  {
    var shadowed :- RewriteIncludes(d, ProjectReference, ConvertToShadowProjectFilePath);
    var converted :- ConvertPackageReferences(shadowed, packages, OwnerRef(root, project.relativePath, sep, variant), variant);
    SetupNames(converted, project.Name())
  }

  /** `SetupRootNamespace` then `SetupAssemblyName`, both with the project name. */
  function SetupNames(d: Document, name: string): Result<Document, Error> {
    var named :- SetupProperty(d, RootNamespaceProperty, name);
    SetupProperty(named, AssemblyNameProperty, name)
  }

  /**
   * Pinning both names fails exactly when there is no property group or either name
   * occurs more than once.  On success each occurs once; the absent ones are appended to
   * the end of the first property group, `RootNamespace` first; nothing else changes.
   */
  lemma SetupNamesFacts(d: Document, name: string, k: ItemKind, other: string)
    ensures SetupNames(d, name).Ok?
        <==> PropertyLists(d) != []
             && |PropertyValues(d, RootNamespaceProperty)| <= 1
             && |PropertyValues(d, AssemblyNameProperty)| <= 1
    ensures SetupNames(d, name).Ok? ==>
      var r, lists := SetupNames(d, name).value, PropertyLists(d);
      && PropertyValues(r, RootNamespaceProperty) == Pinned(PropertyValues(d, RootNamespaceProperty), name)
      && PropertyValues(r, AssemblyNameProperty) == Pinned(PropertyValues(d, AssemblyNameProperty), name)
      && (other != RootNamespaceProperty && other != AssemblyNameProperty ==>
            PropertyValues(r, other) == PropertyValues(d, other))
      && lists != [] && PropertyLists(r) == lists[0 := lists[0] + Defaults(d, name)]
      && Refs(r, k) == Refs(d, k)
      && KindItems(r, k) == KindItems(d, k)
      && EmptyItemGroups(r) == EmptyItemGroups(d)
  {
    var rootValues, assemblyValues := PropertyValues(d, RootNamespaceProperty), PropertyValues(d, AssemblyNameProperty);
    FirstPropertyGroupLists(d);
    if PropertyLists(d) == [] {
      assert rootValues == [];
    }
    var named := SetupProperty(d, RootNamespaceProperty, name);
    if named.Ok? {
      var s := named.value;
      SetupPropertyResult(d, RootNamespaceProperty, name, AssemblyNameProperty, k, s);
      FirstPropertyGroupLists(s);
      if SetupNames(d, name).Ok? {
        SetupNamesResult(d, s, SetupNames(d, name).value, name, k, other);
      }
    }
  }

  /** The success half of `SetupNamesFacts`, through the document `s` with the root namespace set up. */
  lemma SetupNamesResult(d: Document, s: Document, r: Document, name: string, k: ItemKind, other: string)
    requires SetupProperty(d, RootNamespaceProperty, name) == Ok(s)
    requires SetupProperty(s, AssemblyNameProperty, name) == Ok(r)
    ensures var lists := PropertyLists(d);
      && PropertyValues(r, RootNamespaceProperty) == Pinned(PropertyValues(d, RootNamespaceProperty), name)
      && PropertyValues(r, AssemblyNameProperty) == Pinned(PropertyValues(d, AssemblyNameProperty), name)
      && (other != RootNamespaceProperty && other != AssemblyNameProperty ==>
            PropertyValues(r, other) == PropertyValues(d, other))
      && lists != [] && PropertyLists(r) == lists[0 := lists[0] + Defaults(d, name)]
      && Refs(r, k) == Refs(d, k)
      && KindItems(r, k) == KindItems(d, k)
      && EmptyItemGroups(r) == EmptyItemGroups(d)
  {
    var lists, rootValues, assemblyValues := PropertyLists(d), PropertyValues(d, RootNamespaceProperty), PropertyValues(d, AssemblyNameProperty);
    var m1, m2 := Missing(rootValues, RootNamespaceProperty, name), Missing(assemblyValues, AssemblyNameProperty, name);
    assert PropertyValues(s, AssemblyNameProperty) == assemblyValues
        && PropertyValues(s, RootNamespaceProperty) == Pinned(rootValues, name)
        && lists != [] && PropertyLists(s) == lists[0 := lists[0] + m1] by {
      SetupPropertyResult(d, RootNamespaceProperty, name, AssemblyNameProperty, k, s);
    }
    assert PropertyValues(r, RootNamespaceProperty) == PropertyValues(s, RootNamespaceProperty)
        && PropertyValues(r, AssemblyNameProperty) == Pinned(assemblyValues, name)
        && PropertyLists(r) == PropertyLists(s)[0 := PropertyLists(s)[0] + m2] by {
      SetupPropertyResult(s, AssemblyNameProperty, name, RootNamespaceProperty, k, r);
    }
    AppendTwiceToFirst(lists, PropertyLists(s), PropertyLists(r), m1, m2);
    SetupPropertyResult(d, RootNamespaceProperty, name, other, k, s);
    SetupPropertyResult(s, AssemblyNameProperty, name, other, k, r);
  }

  lemma AppendTwiceToFirst<T>(lists: seq<seq<T>>, mid: seq<seq<T>>, last: seq<seq<T>>, m1: seq<T>, m2: seq<T>)
    requires lists != [] && mid == lists[0 := lists[0] + m1] && last == mid[0 := mid[0] + m2]
    ensures last == lists[0 := lists[0] + (m1 + m2)]
  {
    assert lists[0] + m1 + m2 == lists[0] + (m1 + m2);
  }

  /** The properties pinning the names appends, `RootNamespace` first, for those absent. */
  function Defaults(d: Document, name: string): seq<Property> {
    Missing(PropertyValues(d, RootNamespaceProperty), RootNamespaceProperty, name)
    + Missing(PropertyValues(d, AssemblyNameProperty), AssemblyNameProperty, name)
  }

  /** The value a pinned property has in the shadow: the one already there, else the project name. */
  function Pinned(values: seq<string>, name: string): seq<string> {
    if values == [] then [name] else values
  }

  /**
   * Generation fails exactly when a project or package reference lacks its `Include`,
   * when the document has no property group, or when `RootNamespace` or `AssemblyName`
   * occurs more than once.
   */
  lemma GenerateSucceeds(d: Document, project: Project, packages: map<string, PackageDeclaration>,
                         root: string, sep: char, variant: Variant)
    ensures GenerateDocument(d, project, packages, root, sep, variant).Ok?
        <==> None !in Refs(d, ProjectReference) && None !in Refs(d, PackageReference)
             && PropertyLists(d) != []
             && |PropertyValues(d, RootNamespaceProperty)| <= 1
             && |PropertyValues(d, AssemblyNameProperty)| <= 1
  {
    var shadowed := RewriteIncludes(d, ProjectReference, ConvertToShadowProjectFilePath);
    RewriteIncludesFacts(d, ProjectReference, ConvertToShadowProjectFilePath, PackageReference);
    if shadowed.Ok? {
      var s1 := shadowed.value;
      var refOf := OwnerRef(root, project.relativePath, sep, variant);
      ConvertThenNameSucceeds(s1, packages, refOf, variant, project.Name());
      assert PropertyValues(s1, RootNamespaceProperty) == PropertyValues(d, RootNamespaceProperty);
      assert PropertyValues(s1, AssemblyNameProperty) == PropertyValues(d, AssemblyNameProperty);
    }
  }

  /** Converting the package references and then pinning the names: when it succeeds. */
  lemma ConvertThenNameSucceeds(d: Document, packages: map<string, PackageDeclaration>,
                                refOf: Project -> string, variant: Variant, name: string)
    ensures var c := ConvertPackageReferences(d, packages, refOf, variant);
      (c.Ok? && SetupNames(c.value, name).Ok?)
        <==> None !in Refs(d, PackageReference)
             && PropertyLists(d) != []
             && |PropertyValues(d, RootNamespaceProperty)| <= 1
             && |PropertyValues(d, AssemblyNameProperty)| <= 1
  {
    var all := Refs(d, PackageReference);
    assert all[0..] == all;
    ConvertSucceeds(d, packages, refOf, variant, 0);
    var converted := ConvertPackageReferences(d, packages, refOf, variant);
    if converted.Ok? {
      ConvertInventory(d, packages, refOf, variant, 0, PackageReference, converted.value);
      SetupNamesFacts(converted.value, name, PackageReference, "");
    } else if PropertyLists(d) != [] {
      assert HasAnchor(d);
    }
  }

  /**
   * A generated shadow, as against the project it comes from:
   * - its package references are the original ones to packages outside the workspace,
   *   with their `Version` and in their order;
   * - its project references are the original ones moved to their shadows, in order, with
   *   one reference to the shadow of each project that builds a workspace package put in
   *   right after those of the first group, in the order of the package references;
   * - every other item, and every property other than the two pinned ones, is unchanged;
   * - `RootNamespace` and `AssemblyName` occur once each, defaulting to the project name,
   *   the defaults being appended to the first property group;
   * - the service leaves exactly as many empty item groups as there were.
   */
  lemma GenerateResult(d: Document, project: Project, packages: map<string, PackageDeclaration>,
                       root: string, sep: char, variant: Variant, k: ItemKind, other: string)
    requires GenerateDocument(d, project, packages, root, sep, variant).Ok?
    ensures var r := GenerateDocument(d, project, packages, root, sep, variant).value;
      var shadowed := Rewritten(Refs(d, ProjectReference), ConvertToShadowProjectFilePath);
      var p := FirstGroupEnd(d, ProjectReference);
      var lists := PropertyLists(d);
      && Refs(r, PackageReference) == External(Refs(d, PackageReference), packages)
      && KindItems(r, PackageReference) == ExternalItems(KindItems(d, PackageReference), packages)
      && Refs(r, ProjectReference)
         == shadowed[..p] + Introduced(Refs(d, PackageReference), packages, OwnerRef(root, project.relativePath, sep, variant)) + shadowed[p..]
      && (k != PackageReference && k != ProjectReference ==> Refs(r, k) == Refs(d, k))
      && PropertyValues(r, RootNamespaceProperty) == Pinned(PropertyValues(d, RootNamespaceProperty), project.Name())
      && PropertyValues(r, AssemblyNameProperty) == Pinned(PropertyValues(d, AssemblyNameProperty), project.Name())
      && (other != RootNamespaceProperty && other != AssemblyNameProperty ==>
            PropertyValues(r, other) == PropertyValues(d, other))
      && lists != [] && PropertyLists(r) == lists[0 := lists[0] + Defaults(d, project.Name())]
      && (variant.DropsEmptyGroups() ==> EmptyItemGroups(r) == EmptyItemGroups(d))
  {
    GenerateOrder(d, project, packages, root, sep, variant);
    var refOf := OwnerRef(root, project.relativePath, sep, variant);
    RewriteIncludesFacts(d, ProjectReference, ConvertToShadowProjectFilePath, PackageReference);
    RewriteIncludesFacts(d, ProjectReference, ConvertToShadowProjectFilePath, k);
    var s1 := RewriteIncludes(d, ProjectReference, ConvertToShadowProjectFilePath).value;
    var all := Refs(s1, PackageReference);
    assert all[0..] == all && all[..0] + External(all, packages) == External(all, packages);
    ConvertInventory(s1, packages, refOf, variant, 0, k, ConvertPackageReferences(s1, packages, refOf, variant).value);
    ConvertInventory(s1, packages, refOf, variant, 0, PackageReference, ConvertPackageReferences(s1, packages, refOf, variant).value);
    var s2 := ConvertPackageReferences(s1, packages, refOf, variant).value;
    SetupNamesFacts(s2, project.Name(), k, other);
    SetupNamesFacts(s2, project.Name(), PackageReference, other);
    SetupNamesFacts(s2, project.Name(), ProjectReference, other);
    RewriteKeepsItems(d, ProjectReference, ConvertToShadowProjectFilePath, PackageReference);
    ConvertKeepsItems(s1, packages, refOf, variant, 0, s2);
    var items := KindItems(s1, PackageReference);
    assert items[..0] + ExternalItems(items[0..], packages) == ExternalItems(items, packages);
    assert Defaults(s2, project.Name()) == Defaults(d, project.Name());
  }

  /**
   * Where a generated shadow has its project references: the original ones, moved to
   * their shadows and in their order, with the references introduced for the workspace
   * packages, in the order of the package references they replace, right after those of
   * the first group.
   */
  lemma GenerateOrder(d: Document, project: Project, packages: map<string, PackageDeclaration>,
                      root: string, sep: char, variant: Variant)
    requires GenerateDocument(d, project, packages, root, sep, variant).Ok?
    ensures var r := GenerateDocument(d, project, packages, root, sep, variant).value;
      var shadowed := Rewritten(Refs(d, ProjectReference), ConvertToShadowProjectFilePath);
      var p := FirstGroupEnd(d, ProjectReference);
      var introduced := Introduced(Refs(d, PackageReference), packages, OwnerRef(root, project.relativePath, sep, variant));
      Refs(r, ProjectReference) == shadowed[..p] + introduced + shadowed[p..]
  {
    var refOf := OwnerRef(root, project.relativePath, sep, variant);
    RewriteIncludesFacts(d, ProjectReference, ConvertToShadowProjectFilePath, PackageReference);
    RewriteKeepsFirstGroup(d, ProjectReference, ConvertToShadowProjectFilePath, ProjectReference);
    var s1 := RewriteIncludes(d, ProjectReference, ConvertToShadowProjectFilePath).value;
    var all := Refs(s1, PackageReference);
    assert all[0..] == all;
    ConvertOrder(s1, packages, refOf, variant, 0);
    var s2 := ConvertPackageReferences(s1, packages, refOf, variant).value;
    SetupNamesFacts(s2, project.Name(), ProjectReference, "");
  }

  // ---------------------------------------------------------------------------
  // The service, editing the loaded document in place
  // ---------------------------------------------------------------------------

  /** `AddProjectReference` on the loaded document. */
  method AddProjectReferenceTo(doc: XmlProject, path: string) returns (o: Outcome<Error>)
    modifies doc
    ensures o.Pass? <==> AddProjectReference(old(doc.root), path).Ok?
    ensures o.Pass? ==> doc.root == AddProjectReference(old(doc.root), path).value
    ensures o.Fail? ==> o.error == AddProjectReference(old(doc.root), path).error && doc.root == old(doc.root)
  {
    if |Refs(doc.root, ProjectReference)| > 0 {
      var loc := Locate(doc.root, ProjectReference, 0);
      doc.AddToGroup(loc.0, ProjectRef(path));
      return Pass;
    }
    var last := LastPropertyGroup(doc.root);
    if last.None? {
      return Fail(MissingElement(PropertyGroupElement));
    }
    doc.AddGroupAfter(last.value, ProjectRef(path));
    return Pass;
  }

  /**
   * `ConvertPackageReferences` on the loaded document: the loop over the package
   * references, and for each internal one the loop over the projects that build it.
   */
  method ConvertPackageReferencesIn(doc: XmlProject, packages: map<string, PackageDeclaration>,
                                    refOf: Project -> string, variant: Variant)
    returns (o: Outcome<Error>)
    modifies doc
    ensures var spec := ConvertPackageReferences(old(doc.root), packages, refOf, variant);
      && (o.Pass? <==> spec.Ok?)
      && (o.Pass? ==> doc.root == spec.value)
      && (o.Fail? ==> o.error == spec.error)
  {
    var u: nat := 0;
    while u < |Refs(doc.root, PackageReference)|
      invariant u <= |Refs(doc.root, PackageReference)|
      invariant ConvertPackageReferences(old(doc.root), packages, refOf, variant)
             == ConvertPackageReferencesFrom(doc.root, packages, refOf, variant, u)
      decreases |Refs(doc.root, PackageReference)| - u
    {
      var next: nat;
      o, next := ConvertOneIn(doc, packages, refOf, variant, u);
      if o.Fail? {
        return;
      }
      u := next;
    }
    return Pass;
  }

  /**
   * One pass of the loop over the package references: the `u`-th one throws when it has
   * no `Include`, is skipped when it names a package built elsewhere, and is otherwise
   * replaced, which brings the next one to position `u`.
   */
  method ConvertOneIn(doc: XmlProject, packages: map<string, PackageDeclaration>,
                      refOf: Project -> string, variant: Variant, u: nat)
    returns (o: Outcome<Error>, next: nat)
    requires u < |Refs(doc.root, PackageReference)|
    modifies doc
    ensures o.Fail? ==> ConvertPackageReferencesFrom(old(doc.root), packages, refOf, variant, u) == Err(o.error)
    ensures o.Pass? ==>
      && ConvertPackageReferencesFrom(old(doc.root), packages, refOf, variant, u)
         == ConvertPackageReferencesFrom(doc.root, packages, refOf, variant, next)
      && next <= |Refs(doc.root, PackageReference)|
      && |Refs(doc.root, PackageReference)| - next < |Refs(old(doc.root), PackageReference)| - u
  {
    var d := doc.root;
    var loc := Locate(d, PackageReference, u);
    var attr := d[loc.0].items[loc.1].includeAttr;
    assert Refs(d, PackageReference)[u] == attr;
    ConvertStepNotInternal(d, packages, refOf, variant, u);
    if attr.None? {
      return Fail(NullReference("Include")), u;
    }
    var id := attr.value;
    if id !in packages {
      return Pass, u + 1;
    }
    o := ReplaceIn(doc, loc.0, loc.1, packages[id].projects, refOf, variant);
    var added := if o.Pass? then Ok(doc.root) else Err(o.error);
    assert added == Replace(d, loc.0, loc.1, packages[id].projects, refOf, variant);
    ConvertStepInternal(d, packages, refOf, variant, u, added);
    next := u;
  }

  /** The `u`-th package reference has no `Include`, or names a package built elsewhere. */
  lemma ConvertStepNotInternal(d: Document, packages: map<string, PackageDeclaration>,
                               refOf: Project -> string, variant: Variant, u: nat)
    requires u < |Refs(d, PackageReference)|
    ensures Refs(d, PackageReference)[u].None? ==>
      ConvertPackageReferencesFrom(d, packages, refOf, variant, u) == Err(NullReference("Include"))
    ensures Refs(d, PackageReference)[u].Some? && Refs(d, PackageReference)[u].value !in packages ==>
      ConvertPackageReferencesFrom(d, packages, refOf, variant, u)
      == ConvertPackageReferencesFrom(d, packages, refOf, variant, u + 1)
  {
    ConvertStep(d, packages, refOf, variant, u);
  }

  /**
   * The `u`-th package reference names a package of the workspace: the conversion goes on
   * from the replaced document, which has one package reference fewer, or stops with the
   * replacement's error.
   */
  lemma ConvertStepInternal(d: Document, packages: map<string, PackageDeclaration>,
                            refOf: Project -> string, variant: Variant, u: nat,
                            added: Result<Document, Error>)
    requires u < |Refs(d, PackageReference)|
    requires Internal(Refs(d, PackageReference)[u], packages)
    requires added == Replace(d, Locate(d, PackageReference, u).0, Locate(d, PackageReference, u).1,
                              packages[Refs(d, PackageReference)[u].value].projects, refOf, variant)
    ensures added.Err? ==> ConvertPackageReferencesFrom(d, packages, refOf, variant, u) == Err(added.error)
    ensures added.Ok? ==>
      && ConvertPackageReferencesFrom(d, packages, refOf, variant, u)
         == ConvertPackageReferencesFrom(added.value, packages, refOf, variant, u)
      && |Refs(added.value, PackageReference)| == |Refs(d, PackageReference)| - 1
  {
    ConvertStep(d, packages, refOf, variant, u);
    ReplaceFacts(d, packages, refOf, variant, u, PackageReference);
  }

  /** One internal package reference replaced in place: the item removed, then a project reference per owner. */
  method ReplaceIn(doc: XmlProject, i: nat, j: nat, owners: seq<Project>, refOf: Project -> string, variant: Variant)
    returns (o: Outcome<Error>)
    requires i < |doc.root| && doc.root[i].ItemGroup? && j < |doc.root[i].items|
    modifies doc
    ensures var spec := Replace(old(doc.root), i, j, owners, refOf, variant);
      && (o.Pass? <==> spec.Ok?)
      && (o.Pass? ==> doc.root == spec.value)
      && (o.Fail? ==> o.error == spec.error)
  {
    doc.RemoveItemAt(i, j, variant.DropsEmptyGroups());
    o := AddOwnersIn(doc, owners, refOf);
  }

  /** The loop over the projects that build a package: one project reference added for each, in order. */
  method AddOwnersIn(doc: XmlProject, owners: seq<Project>, refOf: Project -> string)
    returns (o: Outcome<Error>)
    modifies doc
    ensures var spec := AddOwners(old(doc.root), owners, refOf);
      && (o.Pass? <==> spec.Ok?)
      && (o.Pass? ==> doc.root == spec.value)
      && (o.Fail? ==> o.error == spec.error)
  {
    var m := 0;
    while m < |owners|
      invariant m <= |owners|
      invariant AddOwners(old(doc.root), owners, refOf)
             == AddOwners(doc.root, owners[m..], refOf)
    {
      assert owners[m..][0] == owners[m] && owners[m..][1..] == owners[m + 1..];
      var added := AddProjectReferenceTo(doc, refOf(owners[m]));
      if added.Fail? {
        return added;
      }
      m := m + 1;
    }
    assert owners[m..] == [];
    return Pass;
  }

  /** `SetupRootNamespace` / `SetupAssemblyName` on the loaded document. */
  method SetupPropertyIn(doc: XmlProject, name: string, value: string) returns (o: Outcome<Error>)
    modifies doc
    ensures o.Pass? <==> SetupProperty(old(doc.root), name, value).Ok?
    ensures o.Pass? ==> doc.root == SetupProperty(old(doc.root), name, value).value
    ensures o.Fail? ==> o.error == SetupProperty(old(doc.root), name, value).error
  {
    var values := PropertyValues(doc.root, name);
    if |values| > 1 {
      return Fail(MultipleElements(name));
    }
    if |values| == 1 {
      return Pass;
    }
    var first := FirstPropertyGroup(doc.root);
    if first.None? {
      return Fail(MissingElement(PropertyGroupElement));
    }
    doc.AddProperty(first.value, Property(name, value));
    return Pass;
  }

  /** The four edits of `GenerateShadow`, in order, on the loaded document. */
  method GenerateDocumentIn(doc: XmlProject, project: Project, packages: map<string, PackageDeclaration>,
                            root: string, sep: char, variant: Variant)
    returns (o: Outcome<Error>)
    modifies doc
    ensures var spec := GenerateDocument(old(doc.root), project, packages, root, sep, variant);
      && (o.Pass? <==> spec.Ok?)
      && (o.Pass? ==> doc.root == spec.value)
      && (o.Fail? ==> o.error == spec.error)
  {
    o := RewriteAll(doc, ProjectReference, ConvertToShadowProjectFilePath);
    if o.Fail? {
      return;
    }
    o := ConvertPackageReferencesIn(doc, packages, OwnerRef(root, project.relativePath, sep, variant), variant);
    if o.Fail? {
      return;
    }
    o := SetupPropertyIn(doc, RootNamespaceProperty, project.Name());
    if o.Fail? {
      return;
    }
    o := SetupPropertyIn(doc, AssemblyNameProperty, project.Name());
  }

  /**
   * `ShadowProjectGenerateService.GenerateShadow`: argument checks, the project file
   * read under the root, the document rewritten, and the shadow written next to the
   * project.  The result is the shadow's root-relative path; nothing is written when
   * any step throws.
   */
  method GenerateShadow(aggregator: Option<AggregatorView>, csProject: Option<Project>, files: ProjectFiles, sep: char)
    returns (r: Result<string, Error>)
    modifies files
    ensures csProject.None? ==> r == Err(NullArgument("csProject"))
    ensures csProject.Some? && aggregator.None? ==> r == Err(NullArgument("aggregator"))
    ensures csProject.Some? && aggregator.Some? && aggregator.value.rootPath.None? ==> r == Err(NullArgument("path1"))
    ensures csProject.Some? && aggregator.Some? && aggregator.value.rootPath.Some? ==>
      var root := aggregator.value.rootPath.value;
      var project := csProject.value;
      var path := Combine(root, project.relativePath);
      if path !in old(files.files) then r == Err(FileNotFound(path))
      else
        var spec := GenerateDocument(old(files.files)[path], project, aggregator.value.packageDeclarations.entries, root, sep, Service);
        if spec.Err? then r == Err(spec.error)
        else
          var shadowPath := ConvertToShadowProjectFilePath(project.relativePath);
          r == Ok(shadowPath) && files.files == old(files.files)[Combine(root, shadowPath) := spec.value]
    ensures r.Err? ==> files.files == old(files.files)
  {
    if csProject.None? {
      return Err(NullArgument("csProject"));
    }
    if aggregator.None? {
      return Err(NullArgument("aggregator"));
    }
    var project := csProject.value;
    if aggregator.value.rootPath.None? {
      return Err(NullArgument("path1"));
    }
    var root := aggregator.value.rootPath.value;
    var loaded := files.Load(Combine(root, project.relativePath));
    if loaded.Err? {
      return Err(loaded.error);
    }
    var doc := new XmlProject(loaded.value);
    var o := GenerateDocumentIn(doc, project, aggregator.value.packageDeclarations.entries, root, sep, Service);
    if o.Fail? {
      return Err(o.error);
    }
    var shadowPath := ConvertToShadowProjectFilePath(project.relativePath);
    files.Save(Combine(root, shadowPath), doc.root);
    return Ok(shadowPath);
  }
}
