/**
 * The older, self-contained aggregator.  It shares discovery with the service layer
 * (without a folder filter), runs the manifest scanner before the project scanner, and
 * generates shadows with its own inline transform, which is the generate service's
 * transform in its `Legacy` variant: emptied item groups are kept and reference paths
 * are not '/'-normalised.
 */
module LegacyAggregation {
  import opened Wrappers
  import opened Errors
  import opened Text
  import opened Paths
  import opened ShadowPaths
  import opened Models
  import opened ProjectDocument
  import opened PackageRegistry
  import opened PackageScanners
  import ShadowGenerate
  import opened Discovery
  import opened GuidCaches
  import opened Aggregation

  /** `NuspecScanner` first, then `CsprojScanner`. */
  const LegacyScanners: seq<Scanner> := [ManifestScanner, ProjectScanner]

  /**
   * With the legacy order a manifest claims its stem before any project can: a manifest
   * that names a project and is the first manifest with its stem is filed under that
   * stem, whatever `PackageId` a project declares.
   */
  lemma ManifestsWin(root: string, projects: seq<Project>, files: map<string, Document>, manifests: seq<string>, i: nat)
    requires i < |manifests| && ScanAll(Empty, LegacyScanners, root, projects, files, manifests).Ok?
    requires FirstNamed(projects, FileNameWithoutExtension(manifests[i])).Some?
    requires forall j :: 0 <= j < i ==> FileNameWithoutExtension(manifests[j]) != FileNameWithoutExtension(manifests[i])
    ensures var stem := FileNameWithoutExtension(manifests[i]);
      var result := ScanAll(Empty, LegacyScanners, root, projects, files, manifests).value;
      stem in result.entries
      && result.entries[stem] == ManifestDeclaration(manifests[i], stem, FirstNamed(projects, stem).value)
  {
    var stem := FileNameWithoutExtension(manifests[i]);
    var afterManifests := ScanManifestsSpec(Empty, manifests, projects);
    ScanManifestsFirstWins(Empty, manifests, projects, FileNameWithoutExtension, i, stem);
    ScanAllPair(Empty, ManifestScanner, ProjectScanner, root, projects, files, manifests);
    ScanProjectsExtends(afterManifests, projects, KeyFunction(Some(root), files));
  }

  class LegacyAggregator {
    var rootPath: Option<string>
    var solutionRepositories: Option<seq<SolutionRepository>>
    var allProjects: Option<seq<Project>>
    var packageDeclarations: Registry

    ghost predicate Valid()
      reads this
    {
      packageDeclarations.Valid()
    }

    constructor()
      ensures rootPath.None? && solutionRepositories.None? && allProjects.None?
      ensures packageDeclarations == Empty && Valid()
    {
      rootPath := None;
      solutionRepositories := None;
      allProjects := None;
      packageDeclarations := Empty;
    }

    /** `Setup(rootPath)`: refuse a null root, then discover without a filter, flatten and scan. */
    method Setup(root: Option<string>, listing: Listing, sep: char, guids: GuidSource, files: ProjectFiles, manifests: seq<string>)
      returns (o: Outcome<Error>)
      requires Valid()
      modifies this, guids
      ensures Valid()
      ensures root.None? ==>
        && o == Fail(NullArgument("rootPath"))
        && rootPath == old(rootPath) && solutionRepositories == old(solutionRepositories)
        && allProjects == old(allProjects) && packageDeclarations == old(packageDeclarations)
      ensures root == Some("") ==>
        && o == Fail(EmptyPath) && rootPath == root
        && solutionRepositories == old(solutionRepositories)
        && allProjects == old(allProjects) && packageDeclarations == old(packageDeclarations)
      ensures root.Some? && root.value != "" ==>
        && rootPath == root
        && solutionRepositories.Some?
        && Shape(solutionRepositories.value) == Plan(root.value, None, listing, sep)
        && DrawnBetween(Ids(solutionRepositories.value), old(guids.next), guids.next)
        && allProjects == Some(AllProjectsOf(solutionRepositories.value))
        && var spec := ScanAll(Empty, LegacyScanners, root.value, allProjects.value, files.files, manifests);
           (o.Pass? <==> spec.Ok?)
           && (o.Pass? ==> packageDeclarations == spec.value)
           && (o.Fail? ==> o.error == spec.error && packageDeclarations == old(packageDeclarations))
    {
      if root.None? {
        return Fail(NullArgument("rootPath"));
      }
      rootPath := root;
      var repos := LoadSolutionRepositories(root.value, None, listing, sep, guids);
      if repos.Err? {
        return Fail(repos.error);
      }
      solutionRepositories := Some(repos.value);
      allProjects := Some(AllProjectsOf(repos.value));
      var scanned := ScanPackageDeclarations(files, manifests);
      if scanned.Err? {
        return Fail(scanned.error);
      }
      packageDeclarations := scanned.value;
      return Pass;
    }

    /** `ScanPackageDeclarations`: the manifest scanner, then the project scanner, over one dictionary. */
    method ScanPackageDeclarations(files: ProjectFiles, manifests: seq<string>) returns (r: Result<Registry, Error>)
      requires rootPath.Some? && allProjects.Some?
      ensures r == ScanAll(Empty, LegacyScanners, rootPath.value, allProjects.value, files.files, manifests)
      ensures r.Ok? ==> r.value.Valid()
    {
      var root := rootPath.value;
      var projects := allProjects.value;
      var nugets := new PackageMap();
      ScanManifests(manifests, projects, nugets);
      ScanManifestsExtends(Empty, manifests, projects, FileNameWithoutExtension);
      var afterManifests := nugets.Contents();
      var o := ScanProjects(rootPath, projects, files, nugets);
      assert LegacyScanners[1..] == [ProjectScanner] && LegacyScanners[1..][1..] == [];
      if o.Fail? {
        return Err(o.error);
      }
      ScanProjectsExtends(afterManifests, projects, KeyFunction(rootPath, files.files));
      return Ok(nugets.Contents());
    }
  }

  /**
   * The legacy static `GenerateShadow(csProject, path, nugets, cache)`: read the project,
   * apply the inline transform, write the shadow, then give it the cached identifier.
   * There is no argument check; a null root fails in `Path.Combine`.
   */
  method GenerateShadow(csProject: Project, root: Option<string>, nugets: Registry, cache: GuidCache,
                        files: ProjectFiles, sep: char, guids: GuidSource)
    returns (r: Result<Project, Error>)
    modifies files, cache, guids
    ensures var spec := GenerateStep(root, nugets.entries, csProject, old(files.files), sep, ShadowGenerate.Legacy);
      && (r.Ok? <==> spec.Ok?)
      && (r.Err? ==> r.error == spec.error && files.files == old(files.files)
                     && cache.entries == old(cache.entries) && guids.next == old(guids.next))
      && (r.Ok? ==> files.files == spec.value.1 && r.value.relativePath == spec.value.0
                    && (cache.entries, r.value.id) == Lookup(old(cache.entries), spec.value.0, old(guids.next)))
  {
    var shadowPath := ReplaceAll(csProject.relativePath, CsprojExt, ShadowCsprojExt);
    if root.None? {
      return Err(NullArgument("path1"));
    }
    var loaded := files.Load(Combine(root.value, csProject.relativePath));
    if loaded.Err? {
      return Err(loaded.error);
    }
    var doc := new XmlProject(loaded.value);
    var o := ShadowGenerate.GenerateDocumentIn(doc, csProject, nugets.entries, root.value, sep, ShadowGenerate.Legacy);
    if o.Fail? {
      return Err(o.error);
    }
    files.Save(Combine(root.value, shadowPath), doc.root);
    var id := cache.GetOrAdd(shadowPath, guids);
    return Ok(Project(shadowPath, id));
  }
}
