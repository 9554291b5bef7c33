# ToggleIssue: the global tool manifest toggler

The ToggleIssue build reproduces a packaging problem with a .NET global tool.
Before repackaging, its `UpdateGlobalTool` target edits the tool's project file:

1. parse the `Version` property as a NuGet version;
2. build a new version from major, minor and patch + 1, dropping any revision, release labels and metadata;
3. in `NotWorking` mode, remove the first `PackageReference` item whose evaluated include is exactly `Nuke.Common`.
   In any other mode, add `<PackageReference Include="Nuke.Common" Version="*" />` if no such item exists;
4. save the project file.

The model has four modules:

- `Wrappers`: `Option`, `Result` and `Outcome`.
- `NuGetVersioning`: the part of NuGet's `NuGetVersion` the step uses.
  It covers parsing, the three-number constructor and the normalized string.
  The round trip `Parse(ToFullString(v)) == Some(v)` is proved for every valid version.
- `ProjectModel`: MSBuild's project model as the step sees it.
  - `ProjectFile` is the document stored on disk.
  - `Project` is the evaluated project in memory: a property map and an ordered list of items.
  - `Project` has the edits `SetProperty`, `AddItem`, `RemoveItem` and `Save`.
- `ToggleIssue`: `Build.cs` itself.
  - `Behavior`, `GetNukePackageReference` and the three methods of the target.
  - `Toggle`, a reference definition of the whole step on a document. `UpdateGlobalTool` is proved to implement it.
  - Lemmas about what the step promises.

`ExpectedBehavior` is a parameter of `UpdateGlobalTool`. The project file at the `GlobalTool` path is a `ProjectFile` object.

## Model

| member | source | states |
|---|---|---|
| `ToggleIssue.GetNukePackageReference` | SampleNukeIssue/ToggleIssue/Build.cs:101-105 | returns the index of the first item whose type is `PackageReference` and whose include is exactly `Nuke.Common` (no earlier item matches); returns none exactly when no item matches |
| `ToggleIssue.FirstWithInclude` | SampleNukeIssue/ToggleIssue/Build.cs:104 | the `FirstOrDefault` query: the result is one of the items and has the include, and it is none exactly when no item has that include |
| `ToggleIssue.FirstWithIncludeIsFirst` | SampleNukeIssue/ToggleIssue/Build.cs:104 | the item `FirstWithInclude` finds sits at a position before which no item has that include, so it is the first match |
| `ToggleIssue.LookupIsFirstPackageReference` | SampleNukeIssue/ToggleIssue/Build.cs:104 | the index lookup finds the same item as the source's query, which takes the first `Nuke.Common` among the items of type `PackageReference`; both find nothing together |
| `ToggleIssue.OtherTypesAreOtherItems` | SampleNukeIssue/ToggleIssue/Build.cs:104 | `GetItems` of any other item type sees only items that the lookup never matches |
| `ToggleIssue.NukeCountZero` | SampleNukeIssue/ToggleIssue/Build.cs:83 | the lookup returns none exactly when the list holds no Nuke.Common package reference |
| `ToggleIssue.RemoveNukeFromGlobalTool` | SampleNukeIssue/ToggleIssue/Build.cs:80-87 | the item list becomes `WithoutNuke` of the old list: with the first match removed, or unchanged when there is none; properties are unchanged |
| `ToggleIssue.AddNukeToGlobalTool` | SampleNukeIssue/ToggleIssue/Build.cs:89-99 | the item list becomes `WithNuke` of the old list: the `Version="*"` reference is appended when there is no match, otherwise nothing changes; properties are unchanged |
| `ToggleIssue.WithoutNukeRemovesOne` | SampleNukeIssue/ToggleIssue/Build.cs:82-86 | removal takes out exactly one Nuke.Common reference when there is one, shortens the list by one, and keeps every other item in its order |
| `ToggleIssue.WithNukeEnsuresOne` | SampleNukeIssue/ToggleIssue/Build.cs:91-98 | with no reference, adding appends exactly `PackageReference Nuke.Common Version="*"` after the existing items; with one, the list (and so the existing version constraint) is unchanged; the reference count becomes at least one; other items are kept |
| `ToggleIssue.WithNukeIdempotent` | SampleNukeIssue/ToggleIssue/Build.cs:91-92 | adding twice gives the same list as adding once |
| `ToggleIssue.WithoutNukeIdempotent` | SampleNukeIssue/ToggleIssue/Build.cs:82-86 | removing twice gives the same list as removing once, provided the list held at most one reference |
| `ToggleIssue.DuplicateSurvivesOneRemoval` | SampleNukeIssue/ToggleIssue/Build.cs:82-86 | with a reference pinned to 1.0.0 followed by the `Version="*"` one, one removal takes out the pinned (first) one and leaves the other; a second removal leaves none |
| `ToggleIssue.AddInt32` | SampleNukeIssue/ToggleIssue/Build.cs:65 | C# `int` addition: the result is an `int` and equals the sum modulo 2^32 |
| `ToggleIssue.NextVersion` | SampleNukeIssue/ToggleIssue/Build.cs:65 | succeeds exactly when the patch is below `int.MaxValue`; the result is (major, minor, patch + 1) with no revision, release labels or metadata; otherwise it fails with `PatchOverflow` |
| `ToggleIssue.Toggle` | SampleNukeIssue/ToggleIssue/Build.cs:63-77 | the reference definition of the step on a stored document: `InvalidVersion` when `Version` does not parse, the `NextVersion` error when the patch cannot be incremented, otherwise the document with `Version` set to the new version's string and the items edited by `WithoutNuke` in `NotWorking` mode and by `WithNuke` in any other mode; its properties are the `Toggle…` lemmas below |
| `ToggleIssue.UpdateGlobalTool` | SampleNukeIssue/ToggleIssue/Build.cs:58-78 | when `Toggle` of the stored document succeeds, the project file holds its result and the outcome is `Pass`; when it fails, the outcome carries the error and the project file is unchanged |
| `ToggleIssue.ToggleBumpsPatch` | SampleNukeIssue/ToggleIssue/Build.cs:63-68 | in every mode, the step succeeds exactly when `Version` parses and its patch can be incremented; the saved `Version` then parses as major.minor.(patch+1); an unparsable or missing version fails with `InvalidVersion` and a patch of `int.MaxValue` fails with `PatchOverflow` |
| `ToggleIssue.ToggleKeepsOtherProperties` | SampleNukeIssue/ToggleIssue/Build.cs:66 | no property other than `Version` changes |
| `ToggleIssue.ToggleNotWorkingRemoves` | SampleNukeIssue/ToggleIssue/Build.cs:68-71 | in `NotWorking` mode the reference count drops by one (stays 0 when there was none); all other items keep their order; with no reference the item list is unchanged |
| `ToggleIssue.ToggleWorkingAdds` | SampleNukeIssue/ToggleIssue/Build.cs:72-75 | in `Working` mode, with no reference the item list becomes the old list plus the `Version="*"` reference; with one the item list is unchanged; other items are kept |
| `ToggleIssue.ToggleKeepsOtherItemTypes` | SampleNukeIssue/ToggleIssue/Build.cs:104 | in both modes, the items of every type other than `PackageReference` are unchanged, including those whose include is `Nuke.Common` |
| `ToggleIssue.ToggleTwice` | SampleNukeIssue/ToggleIssue/Build.cs:63-75 | with at most one reference to start with, a second run in the same mode leaves the item list as the first run left it; after it there is exactly one reference in `Working` mode and none in `NotWorking` mode |
| `ToggleIssue.EnableScenario` | SampleNukeIssue/ToggleIssue/Build.cs:63-77 | `Version` 1.2.3 with no items, `Working`: the result is 1.2.4 with the `Version="*"` reference |
| `ToggleIssue.DisableScenario` | SampleNukeIssue/ToggleIssue/Build.cs:63-77 | `Version` 1.2.3 with a reference pinned to 1.0.0, `NotWorking`: the result is 1.2.4 with no items |
| `ToggleIssue.PrereleaseScenario` | SampleNukeIssue/ToggleIssue/Build.cs:64-66 | `2.0.5.1-beta.1+sha-abc` becomes `2.0.6` |
| `ToggleIssue.MissingVersionScenario` | SampleNukeIssue/ToggleIssue/Build.cs:64 | a project whose evaluation defines no `Version` (so `GetPropertyValue` gives "") fails with `InvalidVersion` |
| `NuGetVersioning.Parse` | SampleNukeIssue/ToggleIssue/Build.cs:64 | every parsed version is valid: each part fits an `int` and the labels and metadata are well formed |
| `NuGetVersioning.ParseToFullString` | SampleNukeIssue/ToggleIssue/Build.cs:64-66 | parsing the normalized string of a valid version gives that version back, so the saved `Version` reads back as the version that was built |
| `NuGetVersioning.FromParts` | SampleNukeIssue/ToggleIssue/Build.cs:65 | `new NuGetVersion(major, minor, patch)`: the three numbers with revision 0 and no release labels or metadata |
| `NuGetVersioning.ToFullString` | SampleNukeIssue/ToggleIssue/Build.cs:66 | `newVersion.ToString()`: `major.minor.patch`, then `.revision` only when it is not 0, `-labels` and `+metadata` only when present; for a version from `FromParts` this is `major.minor.patch`; `ParseToFullString` proves it reads back |
| `NuGetVersioning.NatToString` | SampleNukeIssue/ToggleIssue/Build.cs:66 | the decimal spelling of a number is non-empty, all digits, and has no leading zero |
| `NuGetVersioning.DigitsValueOfNatToString` | SampleNukeIssue/ToggleIssue/Build.cs:64-66 | reading the decimal spelling of a number gives the number back |
| `ProjectModel.PropertyValue` | SampleNukeIssue/ToggleIssue/Build.cs:64 | `GetPropertyValue`: the stored value of the property, or "" when it is not defined |
| `ProjectModel.Project.GetPropertyValue` | SampleNukeIssue/ToggleIssue/Build.cs:64 | the value `PropertyValue` gives for the project's in-memory properties |
| `ProjectModel.GetItems` | SampleNukeIssue/ToggleIssue/Build.cs:104 | the result contains exactly the items of the requested type |
| `ProjectModel.GetItemsAppend` | SampleNukeIssue/ToggleIssue/Build.cs:104 | `GetItems` keeps document order: the items of a concatenation are the items of the first part followed by those of the second |
| `ProjectModel.Project.Parse` | SampleNukeIssue/ToggleIssue/Build.cs:63 | the loaded project holds the properties and items stored in the file |
| `ProjectModel.Project.SetProperty` | SampleNukeIssue/ToggleIssue/Build.cs:66 | the property gets the new value; no other property and no item changes |
| `ProjectModel.Project.AddItem` | SampleNukeIssue/ToggleIssue/Build.cs:94-97 | the new item follows all existing items, which are unchanged; properties are unchanged |
| `ProjectModel.Project.RemoveItem` | SampleNukeIssue/ToggleIssue/Build.cs:85 | exactly the item at the index is removed; the others keep their order; properties are unchanged |
| `ProjectModel.Project.Save` | SampleNukeIssue/ToggleIssue/Build.cs:77 | the project file now holds the in-memory document |

## Behaviour of the step

- Only `NotWorking` removes the reference. Every other value of `ExpectedBehavior` adds it (Build.cs:68).
- Removal takes out the first match only. With several matching references, each run removes one more (`DuplicateSurvivesOneRemoval`).
  Running the removal twice gives the same list as running it once only when there was at most one reference (`WithoutNukeIdempotent`, `ToggleTwice`).
- A patch of `int.MaxValue` makes the step fail. `Patch + 1` wraps to a negative number, which `new NuGetVersion` rejects.
  The model reports this as `PatchOverflow`, before anything is changed.

## Left out

- Loading and saving the project file as XML is not modelled. The missing file, malformed XML and write failures are I/O errors of MSBuild. `ProjectFile` is an in-memory document and `Save` copies the document into it.
- `Project.AddItem` appends the new item. Where MSBuild places the item inside the XML is not modelled.
- `Project.RemoveItem` removes the item itself. MSBuild splits an item element that lists several includes; that is not modelled.
- ProjectModel.Project.Parse: MSBuild evaluation is not modelled. The loaded properties and items are the ones stored in the file.
  SDK defaults, imports, conditions, globs and `$(…)` expansion are not modelled.
  For example, an SDK-style project with no `<Version>` evaluates `Version` to `1.0.0`, so the real step writes `1.0.1`.
  The model treats that project as having no `Version` and fails with `InvalidVersion`.
- MSBuild compares property names and item types case-insensitively. The model compares `Version` and `PackageReference` exactly. The include comparison with `"Nuke.Common"` is an exact, case-sensitive C# `==` in the source too.
- `NuGetVersioning.Parse` models a simplified NuGet grammar: one to four dot-separated decimal parts, each at most `int.MaxValue`, then optional `-labels` and `+metadata` made of dot-separated identifiers over ASCII letters, digits and `-`. It does not model whitespace trimming or any other leniency or strictness of the real parser.
- `NuGetVersioning.ToFullString` is the normalized string. The step only formats a version built from three numbers, where it equals what `NuGetVersion.ToString()` returns. How `ToString()` reuses the original text of a parsed version is not modelled.
- `ExpectedBehavior` is assumed to be set: the target's `Requires` guarantees this, and it becomes a plain `Behavior` parameter.
- `CompileNuGetPackages`, `UpdateToolManifest` and `Reproduce` are left out. They only run `dotnet` and PowerShell commands.
- The Nuke target wiring (`DependsOn`, `Before`, `OnlyWhenDynamic`, `Requires`) is scheduling done by the framework and is not modelled.
- The file globbing and path construction for the solution and project paths are not modelled.
- `SampleNukeIssue/GlobalTool/Build.cs` is not part of this model. It only locates a project file and runs a NuGet restore.
