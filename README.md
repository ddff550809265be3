# SlnAggregate shadow projects, modelled in Dafny

SlnAggregate aggregates the C# projects of several repositories under one root into a
single solution. It does not edit the projects themselves. For every `X.csproj` it
writes a sibling *shadow* project, `X.Shadow.csproj`. In the shadow:

- project references point at other shadows;
- every `PackageReference` to a package built inside the workspace becomes a
  `ProjectReference` to the shadows of the projects that build it;
- `RootNamespace` and `AssemblyName` are pinned to the project name.

*Push* is the inverse. It reads a shadow back and does the following:

- removes the pinned names;
- collapses the references to workspace projects into one `PackageReference` per
  package;
- reverts the remaining shadow references;
- overwrites the original project.

This project models that engine:

- the shadow path functions, `shadow_paths.dfy`;
- the generate service, `shadow_generate.dfy`;
- the push service, `shadow_push.dfy`;
- the two package scanners, `package_scanners.dfy`, both the current ones with their
  argument checks and the older ones without;
- the aggregator's bookkeeping, `aggregator.dfy`, `discovery.dfy` and `guid_cache.dfy`:
  repository discovery, project flattening, the ordered scanner merge, the GUID cache
  and the push loop;
- the older self-contained aggregator, `legacy_aggregator.dfy`. It shares every
  definition with the service layer through a `Variant` switch: it keeps emptied item
  groups, does not normalise `\`, and runs the manifest scanner first.

A project file is a `Document`: the ordered children of `<Project>`. Each child is a
`PropertyGroup` of named values, an `ItemGroup` of items (a kind, an optional `Include`
and an optional `Version`), or another element. `project_document.dfy` defines it.

The in-place XML edits are methods on an `XmlProject` object. Each one is proved equal
to a pure function on documents. The functions in turn carry the properties the
services promise: which references are removed, added or rewritten; what happens to
properties and empty groups; and exactly when each step fails. `include_rewrite.dfy`
holds the `Include` rewriting loop that both services share. `round_trip.dfy` proves
that push recognises every reference that generate introduced for a workspace package,
and maps it back to the package that reference replaced.

The file system appears as plain values:

- a `ProjectFiles` object maps full paths to documents;
- a `Listing` gives the top-level folders and the `*.csproj` files found under each;
- a sequence gives the `*.nuspec` paths.

Fresh GUIDs come from a counting `GuidSource`. An exception becomes an `Err` or `Fail`
carrying an `Error` value that names what .NET would throw:

- `NullArgument(name)`;
- `NullReference(what)`;
- `MultipleElements(name)` for `Single()`;
- `MissingElement(name)` for `First()`/`Last()` on nothing;
- `DuplicateKey` for `Dictionary.Add`;
- `FileNotFound(path)`;
- `EmptyPath`.

## Model

| member | source | states |
|---|---|---|
| Text.ReplaceAllAbsent | src/tools/SoloX.SlnAggregate/Services/Impl/AShadowProjectService.cs:49 | `Replace`, matching character by character, leaves a string that does not contain the pattern unchanged. |
| Text.ReplaceAllRoundTrip | src/tools/SoloX.SlnAggregate/Services/Impl/AShadowProjectService.cs:42-65 | Replacing a pattern by a replacement and then the replacement by the pattern gives back any string that did not already contain the replacement, provided the replacement cannot overlap itself. |
| Text.JoinSplit | src/tools/SoloX.SlnAggregate/Services/Impl/ShadowProjectGenerateService.cs:125 | Splitting a path at a separator and joining it again gives the same path. |
| Text.SplitJoin | src/tools/SoloX.SlnAggregate/Services/Impl/ShadowProjectGenerateService.cs:125 | Joining separator-free segments and splitting again gives the same segments. |
| Paths.Combine | src/tools/SoloX.SlnAggregate/Impl/Aggregator.cs:196 | `Path.Combine(a, b)` returns `b` when `b` is rooted or `a` is empty. Otherwise the result starts with `a` and ends with `b`. |
| Paths.FileNameWithoutExtension | src/tools/SoloX.SlnAggregate/Models/Project.cs:38 | The stem has no separator and is a prefix of the file name. It is strictly shorter exactly when the file name has a dot. |
| Paths.CommonPrefixLength | src/tools/SoloX.SlnAggregate/Services/Impl/ShadowProjectGenerateService.cs:121-123 | The longest common leading run of two segment lists: both agree up to it and differ right after it. |
| Paths.ResolveRelativeSegments | src/tools/SoloX.SlnAggregate/Services/Impl/ShadowProjectGenerateService.cs:121-123 | The relative path `GetRelativePath(from, to)` leads from `from` back to `to`. |
| Paths.RelativeSegmentsDropPrefix | src/tools/SoloX.SlnAggregate/Services/Impl/ShadowProjectGenerateService.cs:121-123 | Directories shared by both ends do not change the relative path. |
| Paths.ReferencePathIgnoresRoot | src/tools/SoloX.SlnAggregate/Services/Impl/ShadowProjectGenerateService.cs:121-123 | The reference from the current project's directory to a target depends only on their root-relative paths, not on the root. |
| Paths.CombineRelative | src/tools/SoloX.SlnAggregate/Impl/Aggregator.cs:196 | Combining a root with a relative path yields the root (trailing separator dropped), a separator and the path. |
| Paths.BackslashNormalisation | src/tools/SoloX.SlnAggregate/Services/Impl/ShadowProjectGenerateService.cs:125 | Replacing `\` by `/` in a `\`-joined relative path gives the `/`-joined path. |
| ShadowPaths.CheckedIsShadowProjectFilePath | src/tools/SoloX.SlnAggregate/Services/Impl/AShadowProjectService.cs:27-35 | A null path fails with `NullArgument("path")`. Otherwise the result is the case-insensitive `.Shadow.csproj` suffix test. |
| ShadowPaths.CheckedConvertToShadowProjectFilePath | src/tools/SoloX.SlnAggregate/Services/Impl/AShadowProjectService.cs:42-50 | A null path fails with `NullArgument("projectPath")`. A path without `.csproj` is returned unchanged. |
| ShadowPaths.CheckedConvertFromShadowToProjectFilePath | src/tools/SoloX.SlnAggregate/Services/Impl/AShadowProjectService.cs:57-65 | A null path fails with `NullArgument("projectPath")`. A path without `.Shadow.csproj` is returned unchanged. |
| ShadowPaths.ShadowRoundTrip | src/tools/SoloX.SlnAggregate/Services/Impl/AShadowProjectService.cs:42-65 | Converting back undoes converting to a shadow, for every path that contains no `.Shadow.csproj`. |
| ShadowPaths.ConvertedIsShadow | src/tools/SoloX.SlnAggregate/Services/Impl/AShadowProjectService.cs:27-50 | The conversion of a path ending in `.csproj` ends in `.Shadow.csproj`, and the recogniser accepts it. |
| ShadowPaths.UpperCaseExtensionNotConverted | src/tools/SoloX.SlnAggregate/Services/Impl/AShadowProjectService.cs:27-50 | A trailing `.CSPROJ` is not converted, although the recogniser accepts `.SHADOW.CSPROJ`: conversion is case-sensitive, recognition is not. |
| ShadowPaths.ConvertProjectPath | src/tools/SoloX.SlnAggregate/Services/Impl/AShadowProjectService.cs:42-50 | `stem.csproj` converts to `stem.Shadow.csproj` when the stem has no `.csproj` of its own. In the older tool (`src/tools/SoloX.SlnAggregate/Aggregator.cs:162`): the legacy shadow path, `Replace(".csproj", ".Shadow.csproj")`, is the same conversion. |
| ShadowPaths.DoubleConversion | src/tools/SoloX.SlnAggregate/Services/Impl/AShadowProjectService.cs:42-50 | Converting a shadow path again yields `stem.Shadow.Shadow.csproj`. This is why existing references are converted before new shadow references are inserted. |
| Models.NameOfFile | src/tools/SoloX.SlnAggregate/Models/Project.cs:38 | The `Name` of `dir/stem.ext` is `stem`. |
| Models.NameOfProjectAndShadow | src/tools/SoloX.SlnAggregate/Models/Project.cs:34-39 | `dir/X.csproj` is named `X`, and its shadow `dir/X.Shadow.csproj` is named `X.Shadow`. |
| Models.GuidSource.NewGuid | src/tools/SoloX.SlnAggregate/Models/Project.cs:24-27 | Each draw returns an identifier never issued before. |
| Models.NewProject | src/tools/SoloX.SlnAggregate/Models/Project.cs:24-39 | The one-argument constructor stores the path verbatim with a fresh identifier. |
| Models.NewSolutionRepository | src/tools/SoloX.SlnAggregate/Models/SolutionRepository.cs:25-31 | Stores the path and the projects unchanged and in order, with a fresh identifier. |
| ProjectDocument.Locate | src/tools/SoloX.SlnAggregate/Services/Impl/ShadowProjectGenerateService.cs:101-105 | The n-th reference of a kind, in XPath document order, is the `Include` of the item at the returned group and position. |
| ProjectDocument.LastGroup | src/tools/SoloX.SlnAggregate/Services/Impl/ShadowProjectPushService.cs:142-145 | `LastOrDefault()` over the references of a kind, then `Parent`: the element holding the last reference, or none exactly when there is no reference of that kind. |
| ProjectDocument.KindItemsIncludes | src/tools/SoloX.SlnAggregate/Services/Impl/ShadowProjectPushService.cs:136 | The items selected by `/Project/ItemGroup/<kind>` are all of that kind, and their `Include` attributes are the references of that kind, one for one and in order. |
| ProjectDocument.RemoveNthRef | src/tools/SoloX.SlnAggregate/Services/Impl/ShadowProjectGenerateService.cs:110-115 | Removing the item that holds the n-th reference removes exactly that reference from the document-order list. |
| ProjectDocument.RemoveItemEmptyGroups | src/tools/SoloX.SlnAggregate/Services/Impl/ShadowProjectGenerateService.cs:110-115 | Removing an item creates an empty item group only when it was the group's last item and the emptied parent is kept. |
| ProjectDocument.AppendToGroupRefs | src/tools/SoloX.SlnAggregate/Services/Impl/ShadowProjectGenerateService.cs:145-146 | Appending an item to an existing group adds exactly its reference. Other kinds are unchanged. |
| ProjectDocument.InsertGroupAfterRefs | src/tools/SoloX.SlnAggregate/Services/Impl/ShadowProjectGenerateService.cs:138-141 | Inserting a new group holding one item adds exactly its reference. Other kinds are unchanged. |
| ProjectDocument.FirstPropertyGroupLists | src/tools/SoloX.SlnAggregate/Services/Impl/ShadowProjectGenerateService.cs:79 | `PropertyGroup.First()` exists exactly when the document has a property group, and it is the first one. |
| ProjectDocument.AppendPropertyValues | src/tools/SoloX.SlnAggregate/Services/Impl/ShadowProjectGenerateService.cs:79-80 | Adding a property to the first group appends it to the end of that group's list, leaving the other groups as they were. Under its own name, the new value sits after the first group's earlier values and before those of later groups. Every other name keeps exactly its values. |
| ProjectDocument.WithoutPropertyValues | src/tools/SoloX.SlnAggregate/Services/Impl/ShadowProjectPushService.cs:69-73 | Removing a property leaves no value of that name; every other property keeps its values. |
| ProjectDocument.WithoutPropertyKeepsItems | src/tools/SoloX.SlnAggregate/Services/Impl/ShadowProjectPushService.cs:69-73 | Removing a property touches no item and no empty item group. |
| ProjectDocument.XmlProject.SetInclude | src/tools/SoloX.SlnAggregate/Services/Impl/ShadowProjectGenerateService.cs:155-157 | Assigns one item's `Include` attribute in place. |
| ProjectDocument.XmlProject.RemoveItemAt | src/tools/SoloX.SlnAggregate/Services/Impl/ShadowProjectGenerateService.cs:110-115 | Removes one item in place, and its group if that group is emptied and the caller drops empty groups. |
| ProjectDocument.XmlProject.AddToGroup | src/tools/SoloX.SlnAggregate/Services/Impl/ShadowProjectGenerateService.cs:145-146 | Appends an item to an existing item group in place. |
| ProjectDocument.XmlProject.AddGroupAfter | src/tools/SoloX.SlnAggregate/Services/Impl/ShadowProjectGenerateService.cs:138-141 | Inserts a new one-item group right after a given element in place. |
| ProjectDocument.XmlProject.AddProperty | src/tools/SoloX.SlnAggregate/Services/Impl/ShadowProjectGenerateService.cs:79-80 | Appends a property to a property group in place. |
| ProjectDocument.XmlProject.RemoveSingleProperty | src/tools/SoloX.SlnAggregate/Services/Impl/ShadowProjectPushService.cs:69-73 | Removes the one property of a name in place. |
| ProjectDocument.ProjectFiles.Load | src/tools/SoloX.SlnAggregate/Services/Impl/ShadowProjectGenerateService.cs:41-42 | Reading a file yields its document, or `FileNotFound`. |
| ProjectDocument.ProjectFiles.Save | src/tools/SoloX.SlnAggregate/Services/Impl/ShadowProjectGenerateService.cs:56-63 | Writing replaces exactly that one file. |
| PackageRegistry.Registry.Add | src/tools/SoloX.SlnAggregate/Package/Impl/CsprojScanner.cs:51-54 | `Dictionary.Add` under an absent key keeps the dictionary well formed. It removes and overwrites nothing, and files the declaration under the key. |
| PackageRegistry.PackageMap.Add | src/tools/SoloX.SlnAggregate/Package/Impl/CsprojScanner.cs:53 | The shared output dictionary, updated in place, now holds the added entry. |
| PackageScanners.PackageKey | src/tools/SoloX.SlnAggregate/Package/Impl/CsprojScanner.cs:42-49 | The key is the single `PackageId` value, or the project `Name` when there is none. More than one `PackageId` fails with `MultipleElements("PackageId")`. |
| PackageScanners.KeyIn | src/tools/SoloX.SlnAggregate/Package/Impl/CsprojScanner.cs:39-49 | One project's key as the loop computes it: a missing root or an unreadable file fails with that error, otherwise the key is the `PackageId` or the project name, as `PackageKey` states. |
| PackageScanners.ScanProjectsFails | src/tools/SoloX.SlnAggregate/Package/Impl/CsprojScanner.cs:37-55 | The project scan fails exactly when some project's key cannot be computed, because its file is missing or it has several `PackageId`s. |
| PackageScanners.ScanProjectsExtends | src/tools/SoloX.SlnAggregate/Package/Impl/CsprojScanner.cs:51-54 | The project scan never removes or overwrites an entry. It keeps the dictionary well formed, and keeps every entry filed under its own id. |
| PackageScanners.ScanProjectsFirstWins | src/tools/SoloX.SlnAggregate/Package/Impl/CsprojScanner.cs:37-54 | Every project's key is present afterwards. The earliest project with a key that was absent before owns it: path = project path, id = key, sole owner = that project. |
| PackageScanners.FirstNamed | src/tools/SoloX.SlnAggregate/Package/Impl/NuspecScanner.cs:45 | `Where(p => p.Name == stem).FirstOrDefault()`: null exactly when no project has that name, otherwise the first project in order that has it. |
| PackageScanners.ScanManifestStep | src/tools/SoloX.SlnAggregate/Package/Impl/NuspecScanner.cs:42-49 | One manifest adds its stem only when a project of that name exists. It files the manifest's declaration there only when the stem was absent. |
| PackageScanners.ScanManifestsKeys | src/tools/SoloX.SlnAggregate/Package/Impl/NuspecScanner.cs:40-50 | After the manifest scan, a key is present exactly when it was before, or when some manifest has that stem and some project has that name. |
| PackageScanners.ScanManifestsExtends | src/tools/SoloX.SlnAggregate/Package/Impl/NuspecScanner.cs:46-49 | The manifest scan never removes or overwrites an entry, and keeps the dictionary well formed. |
| PackageScanners.ScanManifestsFirstWins | src/tools/SoloX.SlnAggregate/Package/Impl/NuspecScanner.cs:40-50 | Take the first manifest with a given stem, for a stem absent before and matching a project. The stem then holds that manifest's declaration, owned by the first project of that name. |
| PackageScanners.ScanProjects | src/tools/SoloX.SlnAggregate/Package/CsprojScanner.cs:14-35 | The project loop without argument checks, as in the older scanner. It leaves the output dictionary equal to the project scan specification, or fails with its error. |
| PackageScanners.ScanProjectFiles | src/tools/SoloX.SlnAggregate/Package/Impl/CsprojScanner.cs:25-56 | A null aggregator or `AllProjects` fails with `NullArgument("aggregator")` and leaves the output as it was; a null output fails with `NullArgument("output")`. Otherwise the loop runs as specified, and the output only ever grows. |
| PackageScanners.ScanManifests | src/tools/SoloX.SlnAggregate/Package/NuspecScanner.cs:15-34 | The manifest loop without argument checks, as in the older scanner. It leaves the output equal to the manifest scan specification. |
| PackageScanners.ScanManifestFiles | src/tools/SoloX.SlnAggregate/Package/Impl/NuspecScanner.cs:23-51 | A null aggregator or `RootPath` fails with `NullArgument("aggregator")` and leaves the output as it was; a null output fails with `NullArgument("output")`. A null `AllProjects` fails once there is a manifest to match, without touching the output. |
| IncludeRewrite.RewriteIncludesFacts | src/tools/SoloX.SlnAggregate/Services/Impl/ShadowProjectGenerateService.cs:150-159 | Rewriting the `Include`s of one kind succeeds exactly when every such item has one. Exactly those references are rewritten, in order; other kinds, properties and empty groups are untouched. |
| IncludeRewrite.RewriteAll | src/tools/SoloX.SlnAggregate/Services/Impl/ShadowProjectPushService.cs:85-94 | The in-place loop over the references of one kind leaves the document equal to the rewriting function's result, or fails with its error. |
| ShadowGenerate.AddProjectReferenceFacts | src/tools/SoloX.SlnAggregate/Services/Impl/ShadowProjectGenerateService.cs:133-148 | Adding a project reference fails with `MissingElement("PropertyGroup")` exactly when there is neither a project reference nor a property group. Otherwise the new `Include` lands right after the references of the first item group that holds one (or starts the list), the others keep their order, and other kinds, properties and empty groups are unchanged. |
| ShadowGenerate.AddProjectReferencePlacement | src/tools/SoloX.SlnAggregate/Services/Impl/ShadowProjectGenerateService.cs:133-148 | With a project reference present, the new item is appended to the item group that holds the first one and every other element is unchanged; with none, it sits alone in a new item group right after the last property group. |
| ShadowGenerate.AddOwnersFacts | src/tools/SoloX.SlnAggregate/Services/Impl/ShadowProjectGenerateService.cs:117-128 | Adding one reference per owning project succeeds exactly when there are no owners or there is an anchor. The owners' references land in the owners' order right after the references of the first item group that holds one, the others keep their order; other kinds, properties and empty groups are unchanged. |
| ShadowGenerate.ConvertSucceeds | src/tools/SoloX.SlnAggregate/Services/Impl/ShadowProjectGenerateService.cs:101-131 | Package conversion succeeds exactly when every package reference has an `Include`, and an anchor exists whenever a matched package has owners. |
| ShadowGenerate.ConvertResult | src/tools/SoloX.SlnAggregate/Services/Impl/ShadowProjectGenerateService.cs:101-131 | Package references not in the registry are kept, in order, as the same items with their `Include` and `Version`, and the matched ones are gone. The owners' shadow references land, in the order of the package references they replace, right after the references of the first project-reference group, the others keeping their order. Properties and other kinds are unchanged, and the service variant leaves the number of empty item groups unchanged. In the older tool (`src/tools/SoloX.SlnAggregate/Aggregator.cs:219-248`): the same facts for the legacy inline conversion, which keeps emptied groups and does not normalise `\`. |
| ShadowGenerate.ConvertKeepsItems | src/tools/SoloX.SlnAggregate/Services/Impl/ShadowProjectGenerateService.cs:101-131 | From any point of the conversion on, the package-reference items already passed stay as they are, and of the rest exactly those outside the registry are kept, in order, with their `Version`. |
| ShadowGenerate.ExternalItemsIncludes | src/tools/SoloX.SlnAggregate/Services/Impl/ShadowProjectGenerateService.cs:104-107 | The `Include`s of the kept package-reference items are exactly the kept references. |
| ShadowGenerate.SetupPropertyFacts | src/tools/SoloX.SlnAggregate/Services/Impl/ShadowProjectGenerateService.cs:74-93 | Setting a default fails with `MultipleElements` when the property occurs more than once. It fails with `MissingElement("PropertyGroup")` when the property is absent and there is no group. Otherwise, a present property leaves the document unchanged. An absent one gets the value, appended to the end of the first property group. Every other property keeps exactly its values, and every item stays where it was. |
| ShadowGenerate.SetupNamesFacts | src/tools/SoloX.SlnAggregate/Services/Impl/ShadowProjectGenerateService.cs:50-54 | `RootNamespace` and `AssemblyName` are each pinned to the project name when absent and kept when present. The missing defaults are appended to the end of the first property group, `RootNamespace` first. Every other property keeps exactly its values, and items are unchanged. This fails exactly when there is no property group or either name occurs twice. |
| ShadowGenerate.GenerateSucceeds | src/tools/SoloX.SlnAggregate/Services/Impl/ShadowProjectGenerateService.cs:44-54 | The whole transform succeeds exactly when the following hold: every reference has an `Include`, there is a property group, and neither name property occurs twice. |
| ShadowGenerate.GenerateResult | src/tools/SoloX.SlnAggregate/Services/Impl/ShadowProjectGenerateService.cs:44-54 | Existing project references become shadows, in order, before the owners' shadow references are added, so nothing is converted twice. The added ones sit right after the first group's references, in the order of the package references they replace. Registry packages are gone, and the others are kept in order as the same items, with their `Version`. The names are pinned, with the missing defaults appended to the end of the first property group. Every other property keeps exactly its values. The service variant leaves exactly as many empty item groups as there were. In the older tool (`src/tools/SoloX.SlnAggregate/Aggregator.cs:164-177`): the same steps, in the same order, with the legacy conversion, which keeps emptied groups, so no statement about empty groups is made for it. |
| ShadowGenerate.AddProjectReferenceTo | src/tools/SoloX.SlnAggregate/Services/Impl/ShadowProjectGenerateService.cs:133-148 | The in-place insertion equals the pure one. On failure the document is unchanged. |
| ShadowGenerate.ConvertPackageReferencesIn | src/tools/SoloX.SlnAggregate/Services/Impl/ShadowProjectGenerateService.cs:95-131 | The in-place loop over a snapshot of the package references equals the conversion function. |
| ShadowGenerate.ConvertOneIn | src/tools/SoloX.SlnAggregate/Services/Impl/ShadowProjectGenerateService.cs:102-129 | One pass of the loop: a reference without `Include` throws, one to a package built elsewhere is skipped, any other is replaced in place. In each case what is left to convert gives the same result as before, and the number of references still to visit goes down. |
| ShadowGenerate.ReplaceIn | src/tools/SoloX.SlnAggregate/Services/Impl/ShadowProjectGenerateService.cs:108-128 | Removing the package reference (and its emptied group) and adding one project reference per owner, in place, equals the pure replacement, error included. |
| ShadowGenerate.AddOwnersIn | src/tools/SoloX.SlnAggregate/Services/Impl/ShadowProjectGenerateService.cs:117-128 | The loop over the owners adds their references in place and equals the pure one, stopping at the first failure. |
| ShadowGenerate.SetupPropertyIn | src/tools/SoloX.SlnAggregate/Services/Impl/ShadowProjectGenerateService.cs:74-93 | The in-place default equals the pure one. |
| ShadowGenerate.GenerateDocumentIn | src/tools/SoloX.SlnAggregate/Services/Impl/ShadowProjectGenerateService.cs:44-54 | The four in-place steps in order equal the document transform. |
| ShadowGenerate.GenerateShadow | src/tools/SoloX.SlnAggregate/Services/Impl/ShadowProjectGenerateService.cs:27-66 | Checks the project, then the aggregator, then the root, and reads the project under the root. It writes the transformed document to the shadow path and returns that path; on any failure no file changes. |
| ShadowPush.RevertPropertyFacts | src/tools/SoloX.SlnAggregate/Services/Impl/ShadowProjectPushService.cs:67-83 | `Single()` fails unless the property occurs exactly once, with `MissingElement` or `MultipleElements`. It is removed exactly when its value is the project name; nothing else changes. |
| ShadowPush.RevertNamesFacts | src/tools/SoloX.SlnAggregate/Services/Impl/ShadowProjectPushService.cs:45-49 | Both names are unpinned when they equal the project name. This fails unless each occurs exactly once, and items are untouched. |
| ShadowPush.AddPackageReferenceFacts | src/tools/SoloX.SlnAggregate/Services/Impl/ShadowProjectPushService.cs:126-158 | The three-way placement fails with `MissingElement("PropertyGroup")` exactly when there is no package reference, no project reference and no property group. Otherwise the item `PackageReference Include=id Version=version` (an absent version printed empty) lands right after the package references of the first group that holds one, the others keeping their order; other kinds, properties and empty groups are unchanged. |
| ShadowPush.AddPackageReferencePlacement | src/tools/SoloX.SlnAggregate/Services/Impl/ShadowProjectPushService.cs:134-158 | With a package reference present, the new item is appended to the group that holds the first one, every other element unchanged; with none, it sits alone in a new item group right after the group of the last project reference; with neither, right after the last property group. |
| ShadowPush.AddPackagesFacts | src/tools/SoloX.SlnAggregate/Services/Impl/ShadowProjectPushService.cs:126-131 | Adding the collected packages fails exactly when there is one and no anchor. Otherwise one package reference per declaration, with its id and version and in the declarations' order, lands right after the package references of the first group that holds one; nothing else changes. |
| ShadowPush.MapOwnersFacts | src/tools/SoloX.SlnAggregate/Services/Impl/ShadowProjectPushService.cs:167-178 | Mapping one declaration's owners succeeds exactly when their paths are distinct and new, and fails with `DuplicateKey` otherwise. Each owner path leads to the declaration and earlier keys are kept. |
| ShadowPush.MapPackagesSucceeds | src/tools/SoloX.SlnAggregate/Services/Impl/ShadowProjectPushService.cs:160-182 | The inverse map is built exactly when no two owners of all declarations share a shadow path; otherwise it fails with `DuplicateKey`. |
| ShadowPush.MapPackagesResult | src/tools/SoloX.SlnAggregate/Services/Impl/ShadowProjectPushService.cs:160-182 | The keys are exactly the owners' relative shadow paths, and each leads to the declaration that owner belongs to. |
| ShadowPush.ProjectToPackageMapOf | src/tools/SoloX.SlnAggregate/Services/Impl/ShadowProjectPushService.cs:160-182 | The nested loops over the dictionary and the owners compute the inverse map function. |
| ShadowPush.MapPackagesIn | src/tools/SoloX.SlnAggregate/Services/Impl/ShadowProjectPushService.cs:163-181 | The outer loop over the declarations, in dictionary order, builds from an empty map exactly the inverse map `MapPackagesResult` describes, or its `DuplicateKey` failure. |
| ShadowPush.MapOwnersIn | src/tools/SoloX.SlnAggregate/Services/Impl/ShadowProjectPushService.cs:167-178 | The inner loop adds each owner's shadow path to the map and fails on the first path already present, as `MapOwnersFacts` describes. |
| ShadowPush.CollectSucceeds | src/tools/SoloX.SlnAggregate/Services/Impl/ShadowProjectPushService.cs:104-124 | Collecting succeeds exactly when every project reference has an `Include`. |
| ShadowPush.CollectResult | src/tools/SoloX.SlnAggregate/Services/Impl/ShadowProjectPushService.cs:104-124 | The references found in the map are removed, and the others are kept in order. The collected declarations are the matched ones in first-seen order. Other kinds, properties and empty groups are unchanged. |
| ShadowPush.FirstSeenFacts | src/tools/SoloX.SlnAggregate/Services/Impl/ShadowProjectPushService.cs:104-124 | The collection has no repetitions and holds exactly the matched declarations, as the `HashSet` does, so many references collapse to one entry. |
| ShadowPush.RevertPackageReferencesSucceeds | src/tools/SoloX.SlnAggregate/Services/Impl/ShadowProjectPushService.cs:96-132 | Given a property group, reverting package references succeeds exactly when the inverse map builds and every project reference has an `Include`. |
| ShadowPush.RevertPackageReferencesResult | src/tools/SoloX.SlnAggregate/Services/Impl/ShadowProjectPushService.cs:96-132 | Matched project references are gone and the rest keep their order. One package reference per distinct matched declaration, with its id and version, in first-seen order, lands right after the package references of the first group that holds one; nothing else changes. |
| ShadowPush.PushSucceeds | src/tools/SoloX.SlnAggregate/Services/Impl/ShadowProjectPushService.cs:45-55 | The push transform succeeds exactly when each name occurs once, the inverse map builds, and every project reference has an `Include`. |
| ShadowPush.PushResult | src/tools/SoloX.SlnAggregate/Services/Impl/ShadowProjectPushService.cs:45-55 | Unmatched project references lose their `.Shadow`, in order. The matched ones become one package reference per declaration, with id and version, in first-seen order, right after the first group's package references. Pinned names are removed; other properties are unchanged, as are the empty groups. |
| ShadowPush.RevertPropertyIn | src/tools/SoloX.SlnAggregate/Services/Impl/ShadowProjectPushService.cs:67-83 | The in-place revert equals the pure one. |
| ShadowPush.AddPackageReferenceTo | src/tools/SoloX.SlnAggregate/Services/Impl/ShadowProjectPushService.cs:134-158 | The in-place placement equals the pure one. On failure nothing changes. |
| ShadowPush.CollectIn | src/tools/SoloX.SlnAggregate/Services/Impl/ShadowProjectPushService.cs:104-124 | The in-place loop over a snapshot equals the collection function, document and collected list alike. |
| ShadowPush.AddPackagesIn | src/tools/SoloX.SlnAggregate/Services/Impl/ShadowProjectPushService.cs:126-131 | The in-place loop over the collected packages equals the pure one. |
| ShadowPush.RevertPackageReferencesIn | src/tools/SoloX.SlnAggregate/Services/Impl/ShadowProjectPushService.cs:96-132 | The in-place revert equals the pure one. |
| ShadowPush.PushDocumentIn | src/tools/SoloX.SlnAggregate/Services/Impl/ShadowProjectPushService.cs:45-55 | The four in-place steps in order equal the push transform. |
| ShadowPush.PushShadow | src/tools/SoloX.SlnAggregate/Services/Impl/ShadowProjectPushService.cs:26-65 | Checks the project, then the aggregator, then the root, and reads the shadow. It overwrites the project file with the reverted document and returns the project path; on any failure no file changes. |
| RoundTrip.OwnerRefsArePaths | src/tools/SoloX.SlnAggregate/Services/Impl/ShadowProjectPushService.cs:169-175 | Every reference generation adds for an owner is one of the owner paths push computes. |
| RoundTrip.IntroducedAreMapped | src/tools/SoloX.SlnAggregate/Services/Impl/ShadowProjectPushService.cs:160-182 | Take a reference that generation added for a registry package. Push's map holds it and maps it back to that package's declaration, whose id is the package key when entries are filed under their ids. |
| RoundTrip.AllIntroducedMapped | src/tools/SoloX.SlnAggregate/Services/Impl/ShadowProjectGenerateService.cs:117-128 | Every reference introduced for any matched package reference of a project is found in push's map. It leads back to the declaration of one of the original package references. |
| Discovery.NonShadowMembers | src/tools/SoloX.SlnAggregate/Impl/Aggregator.cs:210-215 | Discovery keeps exactly the project files the shadow recogniser rejects. |
| Discovery.RelativeToCombined | src/tools/SoloX.SlnAggregate/Impl/Aggregator.cs:219 | A file found at `Combine(root, x)` is given back the relative path `x`. |
| Discovery.ProjectPathsMembers | src/tools/SoloX.SlnAggregate/Impl/Aggregator.cs:210-221 | A folder's project paths are exactly the root-relative paths of its non-shadow project files. |
| Discovery.RepositoryPathOfChild | src/tools/SoloX.SlnAggregate/Impl/Aggregator.cs:223-232 | A top-level folder `name` is filed as `/name`, using the intended leading-root removal. |
| Discovery.RepositoryPathAgrees | src/tools/SoloX.SlnAggregate/Impl/Aggregator.cs:227-230 | `Replace(RootPath, "")` agrees with leading-root removal when the root does not occur again in `/name`. |
| Discovery.RepositoryPathDeletesInnerRoot | src/tools/SoloX.SlnAggregate/Impl/Aggregator.cs:227-230 | With root `src`, the folder `src/websrc` is filed as `/web` by `Replace`, where `/websrc` is meant. |
| Discovery.DiscoveredRepositories | src/tools/SoloX.SlnAggregate/Impl/Aggregator.cs:195-233 | A repository is listed exactly for a top-level folder that passes the filter and holds a non-shadow project. It has that folder's path and project paths, so no repository is empty. |
| Discovery.PlanOfLength | src/tools/SoloX.SlnAggregate/Impl/Aggregator.cs:201-233 | At most one repository per folder. |
| Discovery.NewProjects | src/tools/SoloX.SlnAggregate/Impl/Aggregator.cs:217-221 | One project per path, in order, each with a fresh identifier. |
| Discovery.VisitFolder | src/tools/SoloX.SlnAggregate/Impl/Aggregator.cs:201-233 | One pass of the folder loop: a filtered-out folder or one without projects is skipped (`continue`); any other folder appends one repository. |
| Discovery.LoadSolutionRepositories | src/tools/SoloX.SlnAggregate/Impl/Aggregator.cs:188-236 | An empty root fails. Otherwise the repositories, with their paths and project paths in order, are exactly the discovery plan, with freshly drawn identifiers. In the older tool (`src/tools/SoloX.SlnAggregate/Aggregator.cs:278-317`): the legacy discovery is the same loop without a filter; its `EndsWith` test is the shadow recogniser. |
| Discovery.AllProjectsMembers | src/tools/SoloX.SlnAggregate/Impl/Aggregator.cs:73 | A project is in `AllProjects` exactly when it is in some repository. |
| Discovery.AllProjectsAppend | src/tools/SoloX.SlnAggregate/Impl/Aggregator.cs:73 | Flattening respects repository order: it distributes over concatenation. |
| Discovery.AllProjectsLength | src/tools/SoloX.SlnAggregate/Impl/Aggregator.cs:73 | `AllProjects` has as many entries as the repositories have projects in total. |
| GuidCaches.Lookup | src/tools/SoloX.SlnAggregate/Impl/Aggregator.cs:178-183 | After a lookup the key maps to the returned id. A hit returns the cached id and leaves the cache alone; a miss adds exactly that key with the new id. |
| GuidCaches.LookupIdempotent | src/tools/SoloX.SlnAggregate/Impl/Aggregator.cs:178-183 | Looking the same path up again returns the same id and changes nothing. |
| GuidCaches.LookupIndependent | src/tools/SoloX.SlnAggregate/Impl/Aggregator.cs:178-183 | Looking up another path does not disturb an earlier path's id: the cache only grows. |
| GuidCaches.GuidCache.GetOrAdd | src/tools/SoloX.SlnAggregate/Impl/Aggregator.cs:178-183 | The cache dictionary, updated in place, follows `Lookup`. A fresh identifier is drawn only on a miss. In the older tool (`src/tools/SoloX.SlnAggregate/Aggregator.cs:188-195`): the legacy cache is the same lookup-or-insert. |
| Aggregation.ScanAllExtends | src/tools/SoloX.SlnAggregate/Impl/Aggregator.cs:238-248 | Running the scanners in turn over one dictionary never removes or overwrites an entry, and keeps it well formed. |
| Aggregation.ScanAllFails | src/tools/SoloX.SlnAggregate/Impl/Aggregator.cs:238-248 | The merge fails exactly when the project scanner runs and some project's key cannot be computed. The manifest scanner never fails once the aggregator is set up. |
| Aggregation.ScanAllAppend | src/tools/SoloX.SlnAggregate/Impl/Aggregator.cs:242-245 | If the scanners succeed, every prefix of them succeeds, and the full result extends the prefix's result. |
| Aggregation.RegisteredOrder | src/tools/SoloX.SlnAggregate/SlnAggregateExtensions.cs:35-36 | With the registered order, the result is the manifest scan applied to the result of the project scan. |
| Aggregation.ProjectsWin | src/tools/SoloX.SlnAggregate/SlnAggregateExtensions.cs:35-36 | With the registered order, every project's key is present, and the first project with a key owns it, whatever the manifests say. |
| LegacyAggregation.ManifestsWin | src/tools/SoloX.SlnAggregate/Aggregator.cs:319-327 | With the legacy order, the first manifest with a stem that names a project owns that stem, whatever `PackageId` a project declares. |
| Aggregation.GenerateStepWrites | src/tools/SoloX.SlnAggregate/Services/Impl/ShadowProjectGenerateService.cs:56-65 | A generate call writes the shadow of the project it was given and leaves every other file as it was. |
| Aggregation.PushAllWritesOnlyProjects | src/tools/SoloX.SlnAggregate/Impl/Aggregator.cs:141-150 | Pushing writes only the pushed projects' own files: every other file keeps its presence and content. |
| Aggregation.PushAllWritesProjects | src/tools/SoloX.SlnAggregate/Impl/Aggregator.cs:141-150 | A push run without failure writes every project file, and no file disappears. |
| Aggregation.PushAllAppend | src/tools/SoloX.SlnAggregate/Impl/Aggregator.cs:141-150 | Pushing two lists in a row is pushing the first, then the second from where it left off, unless the first failed. |
| Aggregation.Aggregator.constructor | src/tools/SoloX.SlnAggregate/Impl/Aggregator.cs:39-47 | Stores the injected scanners; nothing is set up yet. |
| Aggregation.Aggregator.Setup | src/tools/SoloX.SlnAggregate/Impl/Aggregator.cs:62-76 | A null root fails and changes nothing. Otherwise `RootPath` is stored and the repositories are the discovery plan. `AllProjects` is their flattening, and the declarations are the scanners' merge, or the merge's error. |
| Aggregation.Aggregator.ScanPackageDeclarations | src/tools/SoloX.SlnAggregate/Impl/Aggregator.cs:238-248 | The loop over the injected scanners returns exactly their ordered merge from an empty dictionary, well formed. |
| Aggregation.Aggregator.RunScanner | src/tools/SoloX.SlnAggregate/Impl/Aggregator.cs:244 | Calling one scanner on the shared dictionary is that scanner's specification. |
| Aggregation.Aggregator.GenerateShadow | src/tools/SoloX.SlnAggregate/Impl/Aggregator.cs:172-186 | The generate service writes the shadow, and the returned project has the shadow path. Its id is the cache's `Lookup` for that path. |
| Aggregation.Aggregator.PushShadowProjects | src/tools/SoloX.SlnAggregate/Impl/Aggregator.cs:141-150 | The project files change exactly as pushing all projects of all repositories in order. The first failure is reported after what earlier pushes wrote. |
| LegacyAggregation.LegacyAggregator.Setup | src/tools/SoloX.SlnAggregate/Aggregator.cs:56-70 | Like the service `Setup`, without a folder filter and with the legacy scanner order. |
| LegacyAggregation.LegacyAggregator.ScanPackageDeclarations | src/tools/SoloX.SlnAggregate/Aggregator.cs:319-327 | The manifest scanner, then the project scanner, over one fresh dictionary. The result is their ordered merge. |
| LegacyAggregation.GenerateShadow | src/tools/SoloX.SlnAggregate/Aggregator.cs:156-196 | The legacy transform is written to the shadow path, and the returned project's id comes from the cache `Lookup`. |

## Left out

- I/O is not modelled. Files, directory listings and manifest enumeration are inputs (`ProjectFiles`, `Listing`, a list of manifest paths), and writing a file is an update of the `ProjectFiles` map.
- XML is not modelled. There is no parsing, XPath evaluation, attribute other than `Include`/`Version`, or writer indentation. A document is the ordered list of `<Project>` children described above.
- `GenerateSolution` is not modelled: template loading and placeholder replacement, the loop that renders the solution file, and console output are text formatting. The per-project `GenerateShadow` it calls, with its GUID cache, is modelled.
- The JSON load and save of the GUID cache is not modelled; the cache is a map passed in and out.
- `Guid.NewGuid` is a counter in `GuidSource`. "Fresh" means "never issued by this source", not random.
- OS path semantics are narrowed. Paths use `/` segments with no `.` or `..`, and the separator that `GetRelativePath` emits is a parameter. `RelativeToCombined` is stated for `/` only.
- `ShadowPaths.CheckedIsShadowProjectFilePath`: case-insensitivity covers ASCII letters only, not the invariant culture's full case folding.
- ShadowPush.FirstSeenFacts: the `HashSet<PackageDeclaration>` is modelled with value equality and first-seen order. The source compares by reference and does not fix an order. These agree when the registry files each declaration under its own id, which `RoundTrip.IntroducedAreMapped` assumes for its last clause.
- ShadowPush.PushShadow requires a well-formed registry (keys listed once, each in the map). This is the representation invariant of the dictionary, not a demand on callers.
- `ProjectDocument.XmlProject.RemoveSingleProperty` removes every property of the name. It is only called when exactly one exists, so this is the same thing.
- The scanners' three-argument `PackageDeclaration` constructor does not exist in the shown class. The model uses the four-argument record with no version.
- Aggregation.Aggregator.ScanPackageDeclarations requires `RootPath` and `AllProjects` to be set. In the source it is private and only called from `Setup`, after both are assigned.
- Aggregation.Aggregator.Setup treats an empty root as `EmptyPath`, standing for the `ArgumentException` that directory enumeration throws.
- `Program`, the command classes, the interfaces and the dependency-injection wiring are not modelled. They are only used to take the scanner order as the `RegisteredScanners` constant.
- Discovery.DiscoveredRepositories: files each repository under the corrected `RepositoryPath`, which removes only the leading root. The source uses `Replace(RootPath, "")` (`src/tools/SoloX.SlnAggregate/Impl/Aggregator.cs:227-230`). The two agree whenever the root does not occur again in `/name` (`Discovery.RepositoryPathAgrees`); the Findings table shows an input where they differ.
- Discovery.VisitFolder: the appended repository carries the corrected path, as in `Discovery.DiscoveredRepositories`.
- Discovery.LoadSolutionRepositories: repository paths are the corrected ones, as in `Discovery.DiscoveredRepositories`.
- Aggregation.Aggregator.Setup: repository paths are the corrected ones, as in `Discovery.DiscoveredRepositories`.
- LegacyAggregation.LegacyAggregator.Setup: repository paths are the corrected ones, where the older tool also uses `Replace(RootPath, "")` (`src/tools/SoloX.SlnAggregate/Aggregator.cs:308-311`).
- Aggregation.Aggregator.constructor: `PackageDeclarations` starts as an empty registry, not null. The model therefore lets a generate or push call succeed on an aggregator that was never set up. The source throws `NullReferenceException` there: in generate at `nugets.TryGetValue` once a package reference is visited (`ShadowProjectGenerateService.cs:107`), in push at the loop over the declarations (`ShadowProjectPushService.cs:165`).
- Aggregation.Aggregator.Setup: when a scanner fails, the declarations keep their previous value, which is the empty registry rather than null, so the later `NullReferenceException`s are not modelled either.
- ShadowGenerate.GenerateSucceeds: the `XmlException` from `XDocument.Parse` is not modelled. It is raised when the project name contains `<` or `&` (`ShadowProjectGenerateService.cs:80, 91`), or when an owner's reference path contains `<`, `&` or `"` (`ShadowProjectGenerateService.cs:127`). The success condition covers every other failure.
- ShadowGenerate.GenerateShadow: the same `XmlException` is not modelled, so such a project is written where the source throws.
- ShadowPush.PushSucceeds: the `XmlException` from a package id or version containing `<`, `&` or `"` (`ShadowProjectPushService.cs:130`) is not modelled. The success condition covers every other failure.
- ShadowPush.PushShadow: the same `XmlException` is not modelled, so such a project is written where the source throws.
- Text.ReplaceAllAbsent: matches the pattern character by character. The source passes `StringComparison.InvariantCulture`, which skips ignorable code points: `.cs` + soft hyphen + `proj` matches `.csproj` there, not in `ReplaceAll`.
- ShadowPaths.CheckedConvertToShadowProjectFilePath: the same character-by-character approximation of the culture-aware `Replace` (`AShadowProjectService.cs:49`).
- ShadowPaths.CheckedConvertFromShadowToProjectFilePath: the same character-by-character approximation of the culture-aware `Replace` (`AShadowProjectService.cs:64`).
- Discovery.RepositoryPathAsWritten: the same character-by-character approximation of the culture-aware `Replace` (`Impl/Aggregator.cs:227-230`).
- LegacyAggregation.GenerateShadow: the `Console.Out.WriteLine` of the shadow path (`src/tools/SoloX.SlnAggregate/Aggregator.cs:182`) is console output and is not modelled. Nor is the `XmlException` that `XDocument.Parse` throws on a `<`, `&` or `"` in the project name or an owner path (`src/tools/SoloX.SlnAggregate/Aggregator.cs:204, 215, 244`): the model builds the elements directly and cannot fail there.

## Findings

| source | as written | input that shows it | evidently intended | confidence | as-written member | corrected member |
|---|---|---|---|---|---|---|
| src/tools/SoloX.SlnAggregate/Impl/Aggregator.cs:227-230 | The repository path is `folder.Replace(RootPath, "")`, which deletes every occurrence of the root text, including occurrences inside the folder's own name. The legacy aggregator does the same at `Aggregator.cs:308-311`. | root `src`, folder `src/websrc` | `/websrc`, with only the leading root removed; the as-written code gives `/web`, so the repository is named `web` | not executed | Discovery.RepositoryPathDeletesInnerRoot | Discovery.RepositoryPathOfChild |
