/**
 * The two package scanners.  Each walks its sources in order and adds a declaration
 * for a package id only when the shared dictionary does not hold that id yet, so the
 * first source to name an id wins and nothing already present is ever replaced.
 *
 * - The project scanner keys each project by its `PackageId` property, or by its name
 *   when it has none.
 * - The manifest scanner keys each `*.nuspec` file by its file stem and keeps it only
 *   if some project has that name.
 */
module PackageScanners {
  import opened Wrappers
  import opened Errors
  import opened Paths
  import opened Models
  import opened ProjectDocument
  import opened PackageRegistry

  const PackageIdProperty: string := "PackageId"

  // ---------------------------------------------------------------------------
  // Project scanner
  // ---------------------------------------------------------------------------

  /** The key of one project document: its single `PackageId` value, else the project name. */
  function PackageKey(d: Document, project: Project): (r: Result<string, Error>)
    ensures r.Err? <==> |PropertyValues(d, PackageIdProperty)| > 1
    ensures r.Err? ==> r.error == MultipleElements(PackageIdProperty)
    ensures r.Ok? && PropertyValues(d, PackageIdProperty) != [] ==> r.value == PropertyValues(d, PackageIdProperty)[0]
    ensures r.Ok? && PropertyValues(d, PackageIdProperty) == [] ==> r.value == project.Name()
  {
    var ids := PropertyValues(d, PackageIdProperty);
    if |ids| > 1 then Err(MultipleElements(PackageIdProperty))
    else if |ids| == 1 then Ok(ids[0])
    else Ok(project.Name())
  }

  /** Reading the project file under the root and computing its key. */
  function KeyOf(root: Option<string>, project: Project, files: map<string, Document>): Result<string, Error> {
    match root
    case None => Err(NullArgument("path1"))
    case Some(r) =>
      var path := Combine(r, project.relativePath);
      if path !in files then Err(FileNotFound(path)) else PackageKey(files[path], project)
  }

  /** The declaration the project scanner files for a project: the project is its own sole owner. */
  function ProjectDeclaration(project: Project, key: string): PackageDeclaration {
    PackageDeclaration(project.relativePath, key, None, [project])
  }

  /** The dictionary after scanning `projects` in order, each keyed by `keyOf`, or the first failure. */
  function ScanProjectsWith(reg: Registry, projects: seq<Project>, keyOf: Project -> Result<string, Error>): Result<Registry, Error>
    decreases |projects|
  {
    if |projects| == 0 then Ok(reg)
    else
      var key :- keyOf(projects[0]);
      ScanProjectsWith(ScanProjectAs(reg, projects[0], key), projects[1..], keyOf)
  }

  /** The project scanner's dictionary: each project is keyed by reading its file under the root. */
  function ScanProjectsSpec(reg: Registry, root: Option<string>, projects: seq<Project>, files: map<string, Document>): Result<Registry, Error> {
    ScanProjectsWith(reg, projects, KeyFunction(root, files))
  }

  function KeyFunction(root: Option<string>, files: map<string, Document>): Project -> Result<string, Error> {
    project => KeyOf(root, project, files)
  }

  /** One project's effect on the dictionary, given its key: filed only if the key is new. */
  function ScanProjectAs(reg: Registry, project: Project, key: string): Registry {
    if key in reg.entries then reg else reg.Add(key, ProjectDeclaration(project, key))
  }

  /** The first step of the scan: the first project's key, then the rest. */
  lemma ScanProjectsCons(reg: Registry, projects: seq<Project>, keyOf: Project -> Result<string, Error>)
    requires |projects| > 0
    ensures var k := keyOf(projects[0]);
      && (k.Err? ==> ScanProjectsWith(reg, projects, keyOf) == Err(k.error))
      && (k.Ok? ==> ScanProjectsWith(reg, projects, keyOf)
                    == ScanProjectsWith(ScanProjectAs(reg, projects[0], k.value), projects[1..], keyOf))
  {
  }

  /** Some project has no readable key iff the first has none or some later one has none. */
  lemma SomeKeyFailsCons(projects: seq<Project>, keyOf: Project -> Result<string, Error>)
    requires |projects| > 0
    ensures (exists i :: 0 <= i < |projects| && keyOf(projects[i]).Err?)
        <==> keyOf(projects[0]).Err?
             || exists i :: 0 <= i < |projects[1..]| && keyOf(projects[1..][i]).Err?
  {
    if exists i :: 0 <= i < |projects| && keyOf(projects[i]).Err? {
      var i :| 0 <= i < |projects| && keyOf(projects[i]).Err?;
      if i > 0 {
        assert projects[1..][i - 1] == projects[i];
      }
    }
    if exists i :: 0 <= i < |projects[1..]| && keyOf(projects[1..][i]).Err? {
      var i :| 0 <= i < |projects[1..]| && keyOf(projects[1..][i]).Err?;
      assert projects[i + 1] == projects[1..][i];
    }
  }

  /** The scan fails exactly when some project has no readable key. */
  lemma {:induction false} ScanProjectsFails(reg: Registry, projects: seq<Project>, keyOf: Project -> Result<string, Error>)
    ensures ScanProjectsWith(reg, projects, keyOf).Err?
        <==> exists i :: 0 <= i < |projects| && keyOf(projects[i]).Err?
    decreases |projects|
  {
    if |projects| > 0 {
      var k := keyOf(projects[0]);
      ScanProjectsCons(reg, projects, keyOf);
      SomeKeyFailsCons(projects, keyOf);
      if k.Ok? {
        ScanProjectsFails(ScanProjectAs(reg, projects[0], k.value), projects[1..], keyOf);
      }
    }
  }

  /** One project files its key, with its own declaration if the key was new, and nothing else. */
  lemma ScanProjectStep(reg: Registry, project: Project, key: string)
    ensures var next := ScanProjectAs(reg, project, key);
      && next.Extends(reg) && key in next.entries
      && (key !in reg.entries ==> next.entries[key] == ProjectDeclaration(project, key))
      && (forall k :: k in next.entries ==> k in reg.entries || k == key)
      && (reg.Valid() ==> next.Valid())
      && (reg.KeyedById() ==> next.KeyedById())
  {
    if key in reg.entries { ExtendsReflexive(reg); }
  }

  /** A successful scan keeps every entry already present, validity and id-keying. */
  lemma {:induction false} ScanProjectsExtends(reg: Registry, projects: seq<Project>, keyOf: Project -> Result<string, Error>)
    requires ScanProjectsWith(reg, projects, keyOf).Ok?
    ensures ScanProjectsWith(reg, projects, keyOf).value.Extends(reg)
    ensures reg.Valid() ==> ScanProjectsWith(reg, projects, keyOf).value.Valid()
    ensures reg.KeyedById() ==> ScanProjectsWith(reg, projects, keyOf).value.KeyedById()
    decreases |projects|
  {
    if |projects| == 0 {
      ExtendsReflexive(reg);
    } else {
      ScanProjectsCons(reg, projects, keyOf);
      var key := keyOf(projects[0]).value;
      var next := ScanProjectAs(reg, projects[0], key);
      ScanProjectStep(reg, projects[0], key);
      ScanProjectsExtends(next, projects[1..], keyOf);
      ExtendsTransitive(reg, next, ScanProjectsWith(next, projects[1..], keyOf).value);
    }
  }

  /**
   * First wins: after a successful scan, the key of project i is present, and if it was
   * new and no earlier project had it, it maps to project i's own declaration.
   */
  lemma {:induction false} ScanProjectsFirstWins(reg: Registry, projects: seq<Project>, keyOf: Project -> Result<string, Error>, i: nat)
    requires ScanProjectsWith(reg, projects, keyOf).Ok?
    requires i < |projects|
    ensures keyOf(projects[i]).Ok?
    ensures keyOf(projects[i]).value in ScanProjectsWith(reg, projects, keyOf).value.entries
    ensures var key := keyOf(projects[i]).value;
      key !in reg.entries && (forall j :: 0 <= j < i ==> keyOf(projects[j]) != Ok(key))
      ==> ScanProjectsWith(reg, projects, keyOf).value.entries[key] == ProjectDeclaration(projects[i], key)
    decreases |projects|
  {
    ScanProjectsCons(reg, projects, keyOf);
    var key0 := keyOf(projects[0]).value;
    var next := ScanProjectAs(reg, projects[0], key0);
    var rest := projects[1..];
    ScanProjectStep(reg, projects[0], key0);
    ScanProjectsExtends(next, rest, keyOf);
    if i > 0 {
      assert rest[i - 1] == projects[i];
      ScanProjectsFirstWins(next, rest, keyOf, i - 1);
      var key := keyOf(projects[i]).value;
      if key !in reg.entries && (forall j :: 0 <= j < i ==> keyOf(projects[j]) != Ok(key)) {
        NoEarlierKeyInRest(projects, keyOf, i, key);
      }
    }
  }

  /** No project before i has key `key`: so the first differs, and no project of the tail before i - 1 has it. */
  lemma NoEarlierKeyInRest(projects: seq<Project>, keyOf: Project -> Result<string, Error>, i: nat, key: string)
    requires 0 < i <= |projects|
    requires forall j :: 0 <= j < i ==> keyOf(projects[j]) != Ok(key)
    ensures keyOf(projects[0]) != Ok(key)
    ensures forall j :: 0 <= j < i - 1 ==> keyOf(projects[1..][j]) != Ok(key)
  {
    forall j | 0 <= j < i - 1
      ensures keyOf(projects[1..][j]) != Ok(key)
    {
      assert projects[1..][j] == projects[j + 1];
    }
  }

  // ---------------------------------------------------------------------------
  // Manifest scanner
  // ---------------------------------------------------------------------------

  /** Index of the first element whose key is `name`, or -1. */
  function FirstIndexWith<T>(xs: seq<T>, key: T -> string, name: string): (r: int)
    ensures -1 <= r < |xs|
    ensures r == -1 <==> forall i :: 0 <= i < |xs| ==> key(xs[i]) != name
    ensures r >= 0 ==> key(xs[r]) == name && forall j :: 0 <= j < r ==> key(xs[j]) != name
  {
    if |xs| == 0 then -1
    else if key(xs[0]) == name then 0
    else
      var r := FirstIndexWith(xs[1..], key, name);
      assert forall i :: 0 < i < |xs| ==> xs[i] == xs[1..][i - 1];
      if r == -1 then -1 else r + 1
  }

  function ProjectName(p: Project): string {
    p.Name()
  }

  /** `projects.Where(p => p.Name == name).FirstOrDefault()`. */
  function FirstNamed(projects: seq<Project>, name: string): (r: Option<Project>)
    ensures r.None? <==> forall i :: 0 <= i < |projects| ==> projects[i].Name() != name
    ensures r.Some? ==> exists i :: 0 <= i < |projects| && projects[i] == r.value && r.value.Name() == name
                                   && (forall j :: 0 <= j < i ==> projects[j].Name() != name)
  {
    var i := FirstIndexWith(projects, ProjectName, name);
    if i < 0 then None else Some(projects[i])
  }

  /** The declaration the manifest scanner files: the manifest path, its stem as id, the matching project as owner. */
  function ManifestDeclaration(manifest: string, stem: string, owner: Project): PackageDeclaration {
    PackageDeclaration(manifest, stem, None, [owner])
  }

  /** One manifest's effect on the dictionary, given its stem. */
  function ScanManifestAs(reg: Registry, manifest: string, stem: string, projects: seq<Project>): Registry {
    match FirstNamed(projects, stem)
    case None => reg
    case Some(owner) => if stem in reg.entries then reg else reg.Add(stem, ManifestDeclaration(manifest, stem, owner))
  }

  /** The dictionary after scanning the manifests in order, each keyed by `stemOf`. */
  function ScanManifestsWith(reg: Registry, manifests: seq<string>, projects: seq<Project>, stemOf: string -> string): Registry
    decreases |manifests|
  {
    if |manifests| == 0 then reg
    else ScanManifestsWith(ScanManifestAs(reg, manifests[0], stemOf(manifests[0]), projects), manifests[1..], projects, stemOf)
  }

  /** The manifest scanner's dictionary: each manifest is keyed by its file name without extension. */
  function ScanManifestsSpec(reg: Registry, manifests: seq<string>, projects: seq<Project>): Registry {
    ScanManifestsWith(reg, manifests, projects, FileNameWithoutExtension)
  }

  lemma ScanManifestExtends(reg: Registry, manifest: string, stem: string, projects: seq<Project>)
    ensures ScanManifestAs(reg, manifest, stem, projects).Extends(reg)
    ensures reg.Valid() ==> ScanManifestAs(reg, manifest, stem, projects).Valid()
    ensures reg.KeyedById() ==> ScanManifestAs(reg, manifest, stem, projects).KeyedById()
  {
    match FirstNamed(projects, stem)
    case None =>
      ExtendsReflexive(reg);
    case Some(owner) =>
      if stem in reg.entries {
        ExtendsReflexive(reg);
      } else {
        AddKeepsShape(reg, stem, ManifestDeclaration(manifest, stem, owner));
      }
  }

  /** One manifest adds its stem, filed with this manifest, exactly when a project has that name and the stem is new. */
  lemma ScanManifestStep(reg: Registry, manifest: string, stem: string, projects: seq<Project>)
    ensures var r := ScanManifestAs(reg, manifest, stem, projects);
      (forall key :: key in r.entries <==> key in reg.entries || (key == stem && FirstNamed(projects, stem).Some?))
      && (stem !in reg.entries && FirstNamed(projects, stem).Some?
          ==> r.entries[stem] == ManifestDeclaration(manifest, stem, FirstNamed(projects, stem).value))
  {
  }

  /** The manifest scan keeps every entry already present, validity and id-keying. */
  lemma {:induction false} ScanManifestsExtends(reg: Registry, manifests: seq<string>, projects: seq<Project>, stemOf: string -> string)
    ensures ScanManifestsWith(reg, manifests, projects, stemOf).Extends(reg)
    ensures reg.Valid() ==> ScanManifestsWith(reg, manifests, projects, stemOf).Valid()
    ensures reg.KeyedById() ==> ScanManifestsWith(reg, manifests, projects, stemOf).KeyedById()
    decreases |manifests|
  {
    if |manifests| == 0 {
      ExtendsReflexive(reg);
    } else {
      var next := ScanManifestAs(reg, manifests[0], stemOf(manifests[0]), projects);
      ScanManifestExtends(reg, manifests[0], stemOf(manifests[0]), projects);
      ScanManifestsExtends(next, manifests[1..], projects, stemOf);
      ExtendsTransitive(reg, next, ScanManifestsWith(next, manifests[1..], projects, stemOf));
    }
  }

  /** One manifest adds a key exactly when it is that manifest's stem and a project has that name. */
  lemma ScanManifestKey(reg: Registry, manifest: string, stem: string, projects: seq<Project>, key: string)
    ensures key in ScanManifestAs(reg, manifest, stem, projects).entries
        <==> key in reg.entries || (key == stem && FirstNamed(projects, stem).Some?)
  {
    ScanManifestStep(reg, manifest, stem, projects);
  }

  /** Some manifest has stem `key` iff the first one has or some later one has. */
  lemma SomeStemCons(manifests: seq<string>, stemOf: string -> string, key: string)
    requires |manifests| > 0
    ensures (exists i :: 0 <= i < |manifests| && stemOf(manifests[i]) == key)
        <==> stemOf(manifests[0]) == key || exists i :: 0 <= i < |manifests[1..]| && stemOf(manifests[1..][i]) == key
  {
    if exists i :: 0 <= i < |manifests| && stemOf(manifests[i]) == key {
      var i :| 0 <= i < |manifests| && stemOf(manifests[i]) == key;
      if i > 0 {
        assert manifests[1..][i - 1] == manifests[i];
      }
    }
    if exists i :: 0 <= i < |manifests[1..]| && stemOf(manifests[1..][i]) == key {
      var i :| 0 <= i < |manifests[1..]| && stemOf(manifests[1..][i]) == key;
      assert manifests[i + 1] == manifests[1..][i];
    }
  }

  /**
   * The keys after the scan: those already present, plus the stem of every manifest
   * whose stem names a project; nothing else.
   */
  lemma {:induction false} ScanManifestsKeys(reg: Registry, manifests: seq<string>, projects: seq<Project>, stemOf: string -> string, key: string)
    ensures key in ScanManifestsWith(reg, manifests, projects, stemOf).entries
        <==> key in reg.entries
             || (FirstNamed(projects, key).Some? && exists i :: 0 <= i < |manifests| && stemOf(manifests[i]) == key)
    decreases |manifests|
  {
    if |manifests| > 0 {
      var stem := stemOf(manifests[0]);
      var next := ScanManifestAs(reg, manifests[0], stem, projects);
      ScanManifestKey(reg, manifests[0], stem, projects, key);
      ScanManifestsKeys(next, manifests[1..], projects, stemOf, key);
      SomeStemCons(manifests, stemOf, key);
    }
  }

  /**
   * First wins: a manifest whose stem names a project, was absent, and is not the stem
   * of an earlier manifest, is filed with its own path and the first project of that name.
   */
  lemma {:induction false} ScanManifestsFirstWins(reg: Registry, manifests: seq<string>, projects: seq<Project>, stemOf: string -> string, i: nat, stem: string)
    requires i < |manifests| && stem == stemOf(manifests[i])
    requires FirstNamed(projects, stem).Some?
    requires stem !in reg.entries
    requires forall j :: 0 <= j < i ==> stemOf(manifests[j]) != stem
    ensures stem in ScanManifestsWith(reg, manifests, projects, stemOf).entries
    ensures ScanManifestsWith(reg, manifests, projects, stemOf).entries[stem]
      == ManifestDeclaration(manifests[i], stem, FirstNamed(projects, stem).value)
    decreases |manifests|
  {
    var stem0 := stemOf(manifests[0]);
    var rest := manifests[1..];
    var next := ScanManifestAs(reg, manifests[0], stem0, projects);
    ScanManifestKey(reg, manifests[0], stem0, projects, stem);
    ScanManifestsExtends(next, rest, projects, stemOf);
    if i > 0 {
      NoEarlierStemInRest(manifests, stemOf, i, stem);
      ScanManifestsFirstWins(next, rest, projects, stemOf, i - 1, stem);
    } else {
      ScanManifestFiled(reg, manifests[0], stem, projects);
    }
  }

  /** A manifest whose stem is new and names a project is filed under its stem with its own declaration. */
  lemma ScanManifestFiled(reg: Registry, manifest: string, stem: string, projects: seq<Project>)
    requires stem !in reg.entries && FirstNamed(projects, stem).Some?
    ensures stem in ScanManifestAs(reg, manifest, stem, projects).entries
    ensures ScanManifestAs(reg, manifest, stem, projects).entries[stem]
      == ManifestDeclaration(manifest, stem, FirstNamed(projects, stem).value)
  {
  }

  /** No manifest before i has stem `stem`: so the first differs, and no manifest of the tail before i - 1 has it. */
  lemma NoEarlierStemInRest(manifests: seq<string>, stemOf: string -> string, i: nat, stem: string)
    requires 0 < i < |manifests|
    requires forall j :: 0 <= j < i ==> stemOf(manifests[j]) != stem
    ensures stemOf(manifests[0]) != stem
    ensures manifests[1..][i - 1] == manifests[i]
    ensures forall j :: 0 <= j < i - 1 ==> stemOf(manifests[1..][j]) != stem
  {
    forall j | 0 <= j < i - 1
      ensures stemOf(manifests[1..][j]) != stem
    {
      assert manifests[1..][j] == manifests[j + 1];
    }
  }

  // ---------------------------------------------------------------------------
  // The scanners as methods over the shared dictionary
  // ---------------------------------------------------------------------------

  /**
   * The project scanner's loop (the whole legacy `CsprojScanner.Scan`): on success the
   * dictionary is the specified one; on failure it keeps what the earlier projects added.
   */
  method ScanProjects(root: Option<string>, projects: seq<Project>, files: ProjectFiles, output: PackageMap)
    returns (o: Outcome<Error>)
    modifies output
    ensures o.Pass? <==> ScanProjectsSpec(old(output.Contents()), root, projects, files.files).Ok?
    ensures o.Pass? ==> output.Contents() == ScanProjectsSpec(old(output.Contents()), root, projects, files.files).value
    ensures o.Fail? ==> o.error == ScanProjectsSpec(old(output.Contents()), root, projects, files.files).error
    ensures output.Contents().Extends(old(output.Contents()))
  {
    ExtendsReflexive(output.Contents());
    ghost var keyOf := KeyFunction(root, files.files);
    var n := 0;
    while n < |projects|
      invariant n <= |projects|
      invariant ScanProjectsWith(old(output.Contents()), projects, keyOf)
             == ScanProjectsWith(output.Contents(), projects[n..], keyOf)
      invariant output.Contents().Extends(old(output.Contents()))
    {
      var project := projects[n];
      var key := KeyIn(root, project, files);
      ScanProjectsCons(output.Contents(), projects[n..], keyOf);
      assert projects[n..][0] == project && projects[n..][1..] == projects[n + 1..];
      if key.Err? {
        return Fail(key.error);
      }
      var before := output.Contents();
      if key.value !in output.entries {
        output.Add(key.value, ProjectDeclaration(project, key.value));
        ExtendsTransitive(old(output.Contents()), before, output.Contents());
      }
      n := n + 1;
    }
    assert projects[n..] == [];
    return Pass;
  }

  /** One project's key: its file under the root, loaded, then its `PackageId` or its name. */
  method KeyIn(root: Option<string>, project: Project, files: ProjectFiles) returns (key: Result<string, Error>)
    ensures key == KeyOf(root, project, files.files)
  {
    if root.None? {
      return Err(NullArgument("path1"));
    }
    var doc := files.Load(Combine(root.value, project.relativePath));
    if doc.Err? {
      return Err(doc.error);
    }
    key := PackageKey(doc.value, project);
  }

  /** `Impl.CsprojScanner.Scan`: argument checks, then the loop. */
  method ScanProjectFiles(aggregator: Option<AggregatorView>, output: PackageMap?, files: ProjectFiles)
    returns (o: Outcome<Error>)
    modifies output
    ensures aggregator.None? || aggregator.value.allProjects.None? ==> o == Fail(NullArgument("aggregator"))
    ensures aggregator.Some? && aggregator.value.allProjects.Some? && output == null ==> o == Fail(NullArgument("output"))
    ensures aggregator.Some? && aggregator.value.allProjects.Some? && output != null ==>
      var spec := ScanProjectsSpec(old(output.Contents()), aggregator.value.rootPath, aggregator.value.allProjects.value, files.files);
      (o.Pass? <==> spec.Ok?) && (o.Pass? ==> output.Contents() == spec.value) && (o.Fail? ==> o.error == spec.error)
    ensures output != null ==> output.Contents().Extends(old(output.Contents()))
    ensures output != null && (aggregator.None? || aggregator.value.allProjects.None?) ==>
      output.Contents() == old(output.Contents())
  {
    if output != null { ExtendsReflexive(output.Contents()); }
    if aggregator.None? || aggregator.value.allProjects.None? {
      return Fail(NullArgument("aggregator"));
    }
    if output == null {
      return Fail(NullArgument("output"));
    }
    o := ScanProjects(aggregator.value.rootPath, aggregator.value.allProjects.value, files, output);
  }

  /** The manifest scanner's loop (the whole legacy `NuspecScanner.Scan`). */
  method ScanManifests(manifests: seq<string>, projects: seq<Project>, output: PackageMap)
    modifies output
    ensures output.Contents() == ScanManifestsSpec(old(output.Contents()), manifests, projects)
  {
    var n := 0;
    while n < |manifests|
      invariant n <= |manifests|
      invariant ScanManifestsWith(old(output.Contents()), manifests, projects, FileNameWithoutExtension)
             == ScanManifestsWith(output.Contents(), manifests[n..], projects, FileNameWithoutExtension)
    {
      assert manifests[n..][1..] == manifests[n + 1..];
      var stem := FileNameWithoutExtension(manifests[n]);
      var owner := FirstNamed(projects, stem);
      if owner.Some? && stem !in output.entries {
        output.Add(stem, ManifestDeclaration(manifests[n], stem, owner.value));
      }
      n := n + 1;
    }
  }

  /**
   * `Impl.NuspecScanner.Scan`: argument checks, then the loop over the manifests found
   * under the root.  An unset project list fails as soon as there is a manifest to match.
   */
  method ScanManifestFiles(aggregator: Option<AggregatorView>, output: PackageMap?, manifests: seq<string>)
    returns (o: Outcome<Error>)
    modifies output
    ensures aggregator.None? || aggregator.value.rootPath.None? ==> o == Fail(NullArgument("aggregator"))
    ensures aggregator.Some? && aggregator.value.rootPath.Some? && output == null ==> o == Fail(NullArgument("output"))
    ensures aggregator.Some? && aggregator.value.rootPath.Some? && output != null ==>
      match aggregator.value.allProjects
      case None => (o.Pass? <==> manifests == []) && output.Contents() == old(output.Contents())
      case Some(projects) => o.Pass? && output.Contents() == ScanManifestsSpec(old(output.Contents()), manifests, projects)
    ensures output != null && (aggregator.None? || aggregator.value.rootPath.None?) ==>
      output.Contents() == old(output.Contents())
  {
    if aggregator.None? || aggregator.value.rootPath.None? {
      return Fail(NullArgument("aggregator"));
    }
    if output == null {
      return Fail(NullArgument("output"));
    }
    match aggregator.value.allProjects {
      case None =>
        if |manifests| > 0 {
          return Fail(NullArgument("source"));
        }
        return Pass;
      case Some(projects) =>
        ScanManifests(manifests, projects, output);
        return Pass;
    }
  }
}
