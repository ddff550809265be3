/**
 * The package registry: the dictionary from package id to declaration that the
 * scanners fill and the services read.  A dictionary that is only ever added to
 * enumerates its entries in insertion order, so the registry keeps its keys in that
 * order next to the map.
 */
module PackageRegistry {
  import opened Wrappers
  import opened Models

  datatype Registry = Registry(keys: seq<string>, entries: map<string, PackageDeclaration>) {
    /** Keys are distinct and are exactly the keys of the map. */
    ghost predicate Valid() {
      (forall i, j :: 0 <= i < j < |keys| ==> keys[i] != keys[j])
      && (forall k :: k in entries <==> k in keys)
    }

    /** `output.Add(key, decl)`, which the scanners only do for an absent key. */
    function Add(key: string, decl: PackageDeclaration): (r: Registry)
      requires key !in entries
      ensures Valid() ==> r.Valid()
      ensures r.Extends(this)
      ensures key in r.entries && r.entries[key] == decl
      ensures r.entries.Keys == entries.Keys + {key}
    {
      Registry(keys + [key], entries[key := decl])
    }

    /**
     * This registry holds every entry of `earlier`, unchanged, and enumerates them first,
     * in the same order.
     */
    ghost predicate Extends(earlier: Registry) {
      |earlier.keys| <= |keys| && keys[..|earlier.keys|] == earlier.keys
      && (forall k :: k in earlier.entries ==> k in entries && entries[k] == earlier.entries[k])
    }

    /** Every entry is filed under its own package id. */
    ghost predicate KeyedById() {
      forall k :: k in entries ==> entries[k].id == k
    }
  }

  /**
   * What the scanners and services read of the aggregator: its root folder and its
   * projects, either possibly unset, and the package declarations it has collected.
   */
  datatype AggregatorView = AggregatorView(rootPath: Option<string>, allProjects: Option<seq<Project>>, packageDeclarations: Registry)

  const Empty: Registry := Registry([], map[])

  lemma ExtendsTransitive(a: Registry, b: Registry, c: Registry)
    requires b.Extends(a) && c.Extends(b)
    ensures c.Extends(a)
  {
    assert c.keys[..|a.keys|] == c.keys[..|b.keys|][..|a.keys|];
  }

  /** Adding an absent key extends the registry and keeps it valid, and id-keyed when the id is the key. */
  lemma AddKeepsShape(reg: Registry, key: string, decl: PackageDeclaration)
    requires key !in reg.entries
    ensures reg.Add(key, decl).Extends(reg)
    ensures reg.Valid() ==> reg.Add(key, decl).Valid()
    ensures reg.KeyedById() && decl.id == key ==> reg.Add(key, decl).KeyedById()
  {
  }

  lemma ExtendsReflexive(a: Registry)
    ensures a.Extends(a)
  {
    assert a.keys[..|a.keys|] == a.keys;
  }

  /** The mutable `Dictionary<string, PackageDeclaration>` handed to the scanners. */
  class PackageMap {
    var keys: seq<string>
    var entries: map<string, PackageDeclaration>

    constructor()
      ensures Contents() == Empty
    {
      keys := [];
      entries := map[];
    }

    function Contents(): Registry
      reads this
    {
      Registry(keys, entries)
    }

    method Add(key: string, decl: PackageDeclaration)
      requires key !in entries
      modifies this
      ensures Contents() == old(Contents()).Add(key, decl)
    {
      keys := keys + [key];
      entries := entries[key := decl];
    }
  }
}
