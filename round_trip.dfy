/**
 * Generation and push agree on the path of an owner's shadow: the references that
 * generation puts in place of a workspace package are exactly keys of the map that push
 * builds, and each leads back to the package it replaced.
 */
module RoundTrip {
  import opened Wrappers
  import opened Models
  import opened PackageRegistry
  import opened ShadowGenerate
  import opened ShadowPush

  /** Every reference added for the owners is the owner's path as push computes it. */
  lemma {:induction false} OwnerRefsArePaths(owners: seq<Project>, root: string, current: string, sep: char, x: Option<string>)
    requires x in OwnerRefs(owners, OwnerRef(root, current, sep, Service))
    ensures x.Some? && x.value in OwnerPaths(owners, PathOf(root, current, sep))
    decreases |owners|
  {
    if x != Some(OwnerReferencePath(root, current, owners[0], sep, Service)) {
      OwnerRefsArePaths(owners[1..], root, current, sep, x);
    }
  }

  /**
   * A reference generation introduced for the package `key` is recognised by push, which
   * maps it to the declaration filed under `key`; when the registry files every entry
   * under its own id, the package reference push writes back names `key` again.
   */
  lemma IntroducedAreMapped(reg: Registry, root: string, current: string, sep: char, key: string, x: Option<string>)
    requires reg.Valid() && ProjectToPackageMap(reg, root, current, sep).Ok?
    requires key in reg.entries
    requires x in OwnerRefs(reg.entries[key].projects, OwnerRef(root, current, sep, Service))
    ensures var m := ProjectToPackageMap(reg, root, current, sep).value;
      Mapped(x, m) && m[x.value] == reg.entries[key]
    ensures reg.KeyedById() ==> ProjectToPackageMap(reg, root, current, sep).value[x.value].id == key
  {
    var pathOf := PathOf(root, current, sep);
    OwnerRefsArePaths(reg.entries[key].projects, root, current, sep, x);
    var i :| 0 <= i < |reg.keys| && reg.keys[i] == key;
    MappedAt(reg.keys, reg.entries, pathOf, i, x.value);
  }

  /** One instance of what the map holds: an owner path of the i-th declaration leads to it. */
  lemma MappedAt(keys: seq<string>, entries: map<string, PackageDeclaration>, pathOf: Project -> string, i: nat, p: string)
    requires forall k :: k in keys ==> k in entries
    requires MapPackages(map[], keys, entries, pathOf).Ok?
    requires i < |keys| && p in OwnerPaths(entries[keys[i]].projects, pathOf)
    ensures var m := MapPackages(map[], keys, entries, pathOf).value;
      p in m && m[p] == entries[keys[i]]
  {
    MapPackagesResult(map[], keys, entries, pathOf);
  }

  /**
   * Every reference in the whole introduced list is recognised by push: the references
   * of all internal packages, in order.
   */
  lemma {:induction false} AllIntroducedMapped(reg: Registry, refs: seq<Option<string>>, root: string, current: string, sep: char,
                                                x: Option<string>)
    requires reg.Valid() && ProjectToPackageMap(reg, root, current, sep).Ok?
    requires x in Introduced(refs, reg.entries, OwnerRef(root, current, sep, Service))
    ensures Mapped(x, ProjectToPackageMap(reg, root, current, sep).value)
    ensures exists i :: 0 <= i < |refs| && Internal(refs[i], reg.entries)
              && ProjectToPackageMap(reg, root, current, sep).value[x.value] == reg.entries[refs[i].value]
    decreases |refs|
  {
    var head := if Internal(refs[0], reg.entries) then OwnerRefs(reg.entries[refs[0].value].projects, OwnerRef(root, current, sep, Service)) else [];
    assert Introduced(refs, reg.entries, OwnerRef(root, current, sep, Service)) == head + Introduced(refs[1..], reg.entries, OwnerRef(root, current, sep, Service));
    if x in head {
      IntroducedAreMapped(reg, root, current, sep, refs[0].value, x);
    } else {
      AllIntroducedMapped(reg, refs[1..], root, current, sep, x);
      var i :| 0 <= i < |refs[1..]| && Internal(refs[1..][i], reg.entries)
               && ProjectToPackageMap(reg, root, current, sep).value[x.value] == reg.entries[refs[1..][i].value];
      assert refs[i + 1] == refs[1..][i];
    }
  }
}
