/**
 * The `UpdateGlobalTool` step of the ToggleIssue build: bump the global tool's
 * patch version, then remove or add its `Nuke.Common` package reference
 * depending on the expected behaviour, and save the project file.
 *
 * `Toggle` is the reference definition of the whole step on a document;
 * the methods below are proved to implement it on a `Project`, and the lemmas
 * state what the step promises about versions and package references.
 */
module ToggleIssue {
  import opened Wrappers
  import opened NuGetVersioning
  import opened ProjectModel

  /** `Build.Behavior`: the outcome of the reproduction the build should set up. */
  datatype Behavior = Working | NotWorking

  /** Why the step stops before it changes or saves anything. */
  datatype UpdateError =
    | InvalidVersion  // `NuGetVersion.Parse` throws on the `Version` property
    | PatchOverflow   // `Patch + 1` wraps to a negative `int`, which `new NuGetVersion` rejects

  const VersionProperty: string := "Version"
  const PackageReference: string := "PackageReference"
  const NukeCommon: string := "Nuke.Common"

  /** The metadata of the added reference: `Version="*"`, any version. */
  const AnyVersion: seq<Metadatum> := [Metadatum("Version", "*")]

  /** The item `AddNukeToGlobalTool` adds. */
  const NukeReference: Item := Item(PackageReference, NukeCommon, AnyVersion)

  /** Exact, case-sensitive match on both the item type and the evaluated include. */
  predicate IsNukePackageReference(item: Item) {
    item.itemType == PackageReference && item.evaluatedInclude == NukeCommon
  }

  // ------------------------------------------------------------ the lookup

  /** `GetNukePackageReference`: the position of the first Nuke.Common package reference. */
  function GetNukePackageReference(items: seq<Item>): (r: Option<nat>)
    ensures r.Some? ==> r.value < |items| && IsNukePackageReference(items[r.value])
    ensures r.Some? ==> forall j | 0 <= j < r.value :: !IsNukePackageReference(items[j])
    ensures r.None? <==> forall j | 0 <= j < |items| :: !IsNukePackageReference(items[j])
  {
    if items == [] then None
    else if IsNukePackageReference(items[0]) then Some(0)
    else
      match GetNukePackageReference(items[1..])
      case None => None
      case Some(k) => Some(k + 1)
  }

  /** The first item whose evaluated include is `name` (LINQ's `FirstOrDefault` with that test). */
  function FirstWithInclude(items: seq<Item>, name: string): (r: Option<Item>)
    ensures r.Some? ==> r.value in items && r.value.evaluatedInclude == name
    ensures r.None? <==> forall j | 0 <= j < |items| :: items[j].evaluatedInclude != name
  {
    if items == [] then None
    else if items[0].evaluatedInclude == name then Some(items[0])
    else FirstWithInclude(items[1..], name)
  }

  /** The item `FirstWithInclude` finds is the first one with that include. */
  lemma {:induction false} FirstWithIncludeIsFirst(items: seq<Item>, name: string)
    requires FirstWithInclude(items, name).Some?
    ensures exists i | 0 <= i < |items| ::
              && items[i] == FirstWithInclude(items, name).value
              && forall j | 0 <= j < i :: items[j].evaluatedInclude != name
  {
    if items[0].evaluatedInclude != name {
      FirstWithIncludeIsFirst(items[1..], name);
      var i :| 0 <= i < |items[1..]|
               && items[1..][i] == FirstWithInclude(items[1..], name).value
               && forall j | 0 <= j < i :: items[1..][j].evaluatedInclude != name;
      assert items[i + 1] == FirstWithInclude(items, name).value;
      assert forall j | 0 <= j < i + 1 :: items[j].evaluatedInclude != name by {
        forall j | 0 <= j < i + 1 ensures items[j].evaluatedInclude != name {
          if j > 0 {
            assert items[j] == items[1..][j - 1];
          }
        }
      }
    } else {
      assert items[0] == FirstWithInclude(items, name).value;
    }
  }

  /**
   * The index lookup finds the same item as the source's query, the first
   * `Nuke.Common` among `GetItems("PackageReference")`.
   */
  lemma {:induction false} LookupIsFirstPackageReference(items: seq<Item>)
    ensures FirstWithInclude(GetItems(items, PackageReference), NukeCommon)
            == match GetNukePackageReference(items)
               case None => None
               case Some(i) => Some(items[i])
  {
    if items != [] {
      LookupIsFirstPackageReference(items[1..]);
    }
  }

  // ------------------------------------------------ counting and filtering

  /** How many Nuke.Common package references the list holds. */
  function NukeCount(items: seq<Item>): nat {
    if items == [] then 0
    else (if IsNukePackageReference(items[0]) then 1 else 0) + NukeCount(items[1..])
  }

  /** The items that are not Nuke.Common package references, in order. */
  function OtherItems(items: seq<Item>): seq<Item> {
    if items == [] then []
    else if IsNukePackageReference(items[0]) then OtherItems(items[1..])
    else [items[0]] + OtherItems(items[1..])
  }

  lemma {:induction false} NukeCountAppend(a: seq<Item>, b: seq<Item>)
    ensures NukeCount(a + b) == NukeCount(a) + NukeCount(b)
    ensures OtherItems(a + b) == OtherItems(a) + OtherItems(b)
  {
    if a == [] {
      assert a + b == b;
    } else {
      assert (a + b)[1..] == a[1..] + b;
      NukeCountAppend(a[1..], b);
    }
  }

  lemma {:induction false} NukeCountZero(items: seq<Item>)
    ensures NukeCount(items) == 0 <==> GetNukePackageReference(items).None?
  {
    if items != [] {
      NukeCountZero(items[1..]);
    }
  }

  /** `GetItems` of any type but `PackageReference` sees only items that are not Nuke.Common references. */
  lemma {:induction false} OtherTypesAreOtherItems(items: seq<Item>, itemType: string)
    requires itemType != PackageReference
    ensures GetItems(OtherItems(items), itemType) == GetItems(items, itemType)
  {
    if items != [] {
      OtherTypesAreOtherItems(items[1..], itemType);
    }
  }

  lemma NukeCountCons(item: Item, rest: seq<Item>)
    ensures NukeCount([item] + rest) == (if IsNukePackageReference(item) then 1 else 0) + NukeCount(rest)
    ensures OtherItems([item] + rest) == (if IsNukePackageReference(item) then [] else [item]) + OtherItems(rest)
  {
    assert ([item] + rest)[1..] == rest;
  }

  // ------------------------------------------------ the two item-list edits

  /** The item list after `RemoveNukeFromGlobalTool`. */
  function WithoutNuke(items: seq<Item>): seq<Item> {
    match GetNukePackageReference(items)
    case None => items
    case Some(i) => items[..i] + items[i + 1..]
  }

  /** The item list after `AddNukeToGlobalTool`. */
  function WithNuke(items: seq<Item>): seq<Item> {
    if GetNukePackageReference(items).None? then items + [NukeReference] else items
  }

  /**
   * Removing drops exactly one Nuke.Common reference when there is one, and
   * keeps every other item, in its order.
   */
  lemma WithoutNukeRemovesOne(items: seq<Item>)
    ensures NukeCount(WithoutNuke(items)) == if NukeCount(items) == 0 then 0 else NukeCount(items) - 1
    ensures |WithoutNuke(items)| == if NukeCount(items) == 0 then |items| else |items| - 1
    ensures OtherItems(WithoutNuke(items)) == OtherItems(items)
  {
    NukeCountZero(items);
    match GetNukePackageReference(items)
    case None =>
    case Some(i) =>
      var before, after := items[..i], items[i + 1..];
      assert items == before + ([items[i]] + after);
      NukeCountAppend(before, [items[i]] + after);
      NukeCountCons(items[i], after);
      NukeCountAppend(before, after);
  }

  /**
   * Adding appends exactly one `Nuke.Common` reference with `Version="*"`
   * when none is present and otherwise changes nothing: an existing
   * reference keeps its own version constraint.
   */
  lemma WithNukeEnsuresOne(items: seq<Item>)
    ensures NukeCount(WithNuke(items)) == if NukeCount(items) == 0 then 1 else NukeCount(items)
    ensures NukeCount(items) == 0 ==> WithNuke(items) == items + [NukeReference]
    ensures NukeCount(items) > 0 ==> WithNuke(items) == items
    ensures OtherItems(WithNuke(items)) == OtherItems(items)
  {
    NukeCountZero(items);
    NukeCountAppend(items, [NukeReference]);
    assert NukeCount([NukeReference]) == 1 && OtherItems([NukeReference]) == [] by {
      assert [NukeReference][1..] == [];
    }
  }

  /** Adding twice is adding once. */
  lemma WithNukeIdempotent(items: seq<Item>)
    ensures WithNuke(WithNuke(items)) == WithNuke(items)
  {
    var once := WithNuke(items);
    assert IsNukePackageReference(once[|once| - 1]) || GetNukePackageReference(items).Some?;
  }

  /** Removing twice is removing once, while the list holds at most one reference. */
  lemma WithoutNukeIdempotent(items: seq<Item>)
    requires NukeCount(items) <= 1
    ensures WithoutNuke(WithoutNuke(items)) == WithoutNuke(items)
  {
    WithoutNukeRemovesOne(items);
    NukeCountZero(WithoutNuke(items));
  }

  /**
   * With a pinned reference followed by a `Version="*"` one, removal takes out
   * the first (pinned) one only; a second removal takes out the other, so
   * removal is not idempotent then.
   */
  lemma DuplicateSurvivesOneRemoval()
    ensures var pinned := Item(PackageReference, NukeCommon, [Metadatum("Version", "1.0.0")]);
            && WithoutNuke([pinned, NukeReference]) == [NukeReference]
            && WithoutNuke(WithoutNuke([pinned, NukeReference])) == []
  {
  }

  // ------------------------------------------------------------- versions

  /** C# `int` addition in the default unchecked context: wraps around at 32 bits. */
  function AddInt32(a: int, b: int): (r: int)
    requires -0x8000_0000 <= a <= MaxInt32 && -0x8000_0000 <= b <= MaxInt32
    ensures -0x8000_0000 <= r <= MaxInt32
    ensures r == a + b || r == a + b - 0x1_0000_0000 || r == a + b + 0x1_0000_0000
  {
    var s := a + b;
    if s > MaxInt32 then s - 0x1_0000_0000
    else if s < -0x8000_0000 then s + 0x1_0000_0000
    else s
  }

  /**
   * `new NuGetVersion(version.Major, version.Minor, version.Patch + 1)`:
   * only the three numbers are kept, and the constructor throws when the
   * wrapped patch is negative.
   */
  function NextVersion(v: NuGetVersion): (r: Result<NuGetVersion, UpdateError>)
    requires IsValid(v)
    ensures r.Success? <==> v.patch < MaxInt32
    ensures r.Success? ==> r.value == FromParts(v.major, v.minor, v.patch + 1) && IsValid(r.value)
    ensures r.Failure? ==> r.error == PatchOverflow
  {
    var patch := AddInt32(v.patch, 1);
    if patch < 0 then Failure(PatchOverflow) else Success(FromParts(v.major, v.minor, patch))
  }

  // ------------------------------------------------------ the whole step

  /** The reference definition: the document `UpdateGlobalTool` saves, or why it saves nothing. */
  function Toggle(m: Manifest, behavior: Behavior): Result<Manifest, UpdateError> {
    match Parse(PropertyValue(m.properties, VersionProperty))
    case None => Failure(InvalidVersion)
    case Some(version) =>
      match NextVersion(version)
      case Failure(e) => Failure(e)
      case Success(newVersion) =>
        var items := if behavior == NotWorking then WithoutNuke(m.items) else WithNuke(m.items);
        Success(Manifest(m.properties[VersionProperty := ToFullString(newVersion)], items))
  }

  /** `RemoveNukeFromGlobalTool`. */
  method RemoveNukeFromGlobalTool(project: Project)
    modifies project
    ensures project.items == WithoutNuke(old(project.items))
    ensures project.properties == old(project.properties)
  {
    var nukePackageReference := GetNukePackageReference(project.items);
    if nukePackageReference.Some? {
      project.RemoveItem(nukePackageReference.value);
    }
  }

  /** `AddNukeToGlobalTool`. */
  method AddNukeToGlobalTool(project: Project)
    modifies project
    ensures project.items == WithNuke(old(project.items))
    ensures project.properties == old(project.properties)
  {
    var nukePackageReference := GetNukePackageReference(project.items);
    if nukePackageReference.None? {
      project.AddItem(PackageReference, NukeCommon, AnyVersion);
    }
  }

  /**
   * The `UpdateGlobalTool` target: on success the project file holds the
   * document `Toggle` describes; on failure it is left as it was.
   */
  method UpdateGlobalTool(globalTool: ProjectFile, expectedBehavior: Behavior) returns (r: Outcome<UpdateError>)
    modifies globalTool
    ensures match Toggle(old(globalTool.contents), expectedBehavior)
            case Success(m) => r == Pass && globalTool.contents == m
            case Failure(e) => r == Fail(e) && globalTool.contents == old(globalTool.contents)
  {
    var project := new Project.Parse(globalTool);
    var version := Parse(project.GetPropertyValue(VersionProperty));
    if version.None? {
      return Fail(InvalidVersion);
    }
    var newVersion := NextVersion(version.value);
    if newVersion.Failure? {
      return Fail(newVersion.error);
    }
    project.SetProperty(VersionProperty, ToFullString(newVersion.value));

    if expectedBehavior == NotWorking {
      RemoveNukeFromGlobalTool(project);
    } else {
      AddNukeToGlobalTool(project);
    }

    project.Save();
    r := Pass;
  }

  // ------------------------------------------------ properties of the step

  /**
   * The step succeeds exactly when the version parses and its patch can be
   * incremented; the saved version is then `major.minor.(patch+1)`, whatever
   * the mode, with revision, release labels and metadata dropped.
   */
  lemma ToggleBumpsPatch(m: Manifest, behavior: Behavior)
    ensures var version := Parse(PropertyValue(m.properties, VersionProperty));
            && (Toggle(m, behavior).Success? <==> version.Some? && version.value.patch < MaxInt32)
            && (version.None? ==> Toggle(m, behavior) == Failure(InvalidVersion))
            && (version.Some? && version.value.patch == MaxInt32 ==> Toggle(m, behavior) == Failure(PatchOverflow))
            && (Toggle(m, behavior).Success? ==>
                  Parse(PropertyValue(Toggle(m, behavior).value.properties, VersionProperty))
                  == Some(FromParts(version.value.major, version.value.minor, version.value.patch + 1)))
  {
    var version := Parse(PropertyValue(m.properties, VersionProperty));
    if version.Some? && version.value.patch < MaxInt32 {
      ParseToFullString(FromParts(version.value.major, version.value.minor, version.value.patch + 1));
    }
  }

  /** Only the `Version` property changes. */
  lemma ToggleKeepsOtherProperties(m: Manifest, behavior: Behavior, name: string)
    requires name != VersionProperty
    requires Toggle(m, behavior).Success?
    ensures PropertyValue(Toggle(m, behavior).value.properties, name) == PropertyValue(m.properties, name)
  {
  }

  /**
   * In `NotWorking` mode one Nuke.Common reference is removed (the first one,
   * as `WithoutNuke` defines it) when there is one; the other items,
   * including items of other types with the same include, keep their order;
   * without a reference nothing changes.
   */
  lemma ToggleNotWorkingRemoves(m: Manifest)
    requires Toggle(m, NotWorking).Success?
    ensures var items := Toggle(m, NotWorking).value.items;
            && NukeCount(items) == (if NukeCount(m.items) == 0 then 0 else NukeCount(m.items) - 1)
            && OtherItems(items) == OtherItems(m.items)
            && (NukeCount(m.items) == 0 ==> items == m.items)
  {
    WithoutNukeRemovesOne(m.items);
    NukeCountZero(m.items);
  }

  /**
   * In `Working` mode one `Nuke.Common` reference with `Version="*"` is appended
   * when none is present; an existing reference is kept as it is.
   */
  lemma ToggleWorkingAdds(m: Manifest)
    requires Toggle(m, Working).Success?
    ensures var items := Toggle(m, Working).value.items;
            && (NukeCount(m.items) == 0 ==> items == m.items + [NukeReference])
            && (NukeCount(m.items) > 0 ==> items == m.items)
            && NukeCount(items) == (if NukeCount(m.items) == 0 then 1 else NukeCount(m.items))
            && OtherItems(items) == OtherItems(m.items)
  {
    WithNukeEnsuresOne(m.items);
  }

  /** Items of other types, even with the include `Nuke.Common`, are never touched, in either mode. */
  lemma ToggleKeepsOtherItemTypes(m: Manifest, behavior: Behavior, itemType: string)
    requires itemType != PackageReference
    requires Toggle(m, behavior).Success?
    ensures GetItems(Toggle(m, behavior).value.items, itemType) == GetItems(m.items, itemType)
  {
    var items := Toggle(m, behavior).value.items;
    if behavior == NotWorking {
      WithoutNukeRemovesOne(m.items);
    } else {
      WithNukeEnsuresOne(m.items);
    }
    assert OtherItems(items) == OtherItems(m.items);
    OtherTypesAreOtherItems(items, itemType);
    OtherTypesAreOtherItems(m.items, itemType);
  }

  /**
   * Running the step twice in the same mode bumps the patch twice but leaves the
   * reference set as one run does, as long as there was at most one reference;
   * in `Working` mode exactly one reference remains.
   */
  lemma ToggleTwice(m: Manifest, behavior: Behavior)
    requires NukeCount(m.items) <= 1
    requires Toggle(m, behavior).Success?
    requires Toggle(Toggle(m, behavior).value, behavior).Success?
    ensures var once := Toggle(m, behavior).value;
            var twice := Toggle(once, behavior).value;
            && twice.items == once.items
            && NukeCount(twice.items) == (if behavior == NotWorking then 0 else 1)
  {
    var once := Toggle(m, behavior).value;
    if behavior == NotWorking {
      WithoutNukeIdempotent(m.items);
      WithoutNukeRemovesOne(m.items);
    } else {
      WithNukeIdempotent(m.items);
      WithNukeEnsuresOne(m.items);
    }
  }

  // ----------------------------------------------------------- scenarios

  /** `1.2.3` without a reference, `Working`: `1.2.4` with the reference added. */
  lemma EnableScenario()
    ensures Toggle(Manifest(map[VersionProperty := "1.2.3"], []), Working)
            == Success(Manifest(map[VersionProperty := "1.2.4"], [NukeReference]))
  {
    var m := Manifest(map[VersionProperty := "1.2.3"], []);
    ParsesAsOneTwoThree();
    assert WithNuke(m.items) == [NukeReference];
    assert m.properties[VersionProperty := "1.2.4"] == map[VersionProperty := "1.2.4"];
  }

  /** `1.2.3` parses as 1.2.3, and 1.2.4 formats as `1.2.4`. */
  lemma ParsesAsOneTwoThree()
    ensures Parse("1.2.3") == Some(FromParts(1, 2, 3))
    ensures NextVersion(FromParts(1, 2, 3)) == Success(FromParts(1, 2, 4))
    ensures ToFullString(FromParts(1, 2, 4)) == "1.2.4"
  {
    assert "1.2.3" == ToFullString(FromParts(1, 2, 3));
    ParseToFullString(FromParts(1, 2, 3));
  }

  /** `1.2.3` with a pinned reference, `NotWorking`: `1.2.4` with the reference gone. */
  lemma DisableScenario()
    ensures var pinned := Item(PackageReference, NukeCommon, [Metadatum("Version", "1.0.0")]);
            Toggle(Manifest(map[VersionProperty := "1.2.3"], [pinned]), NotWorking)
            == Success(Manifest(map[VersionProperty := "1.2.4"], []))
  {
    var pinned := Item(PackageReference, NukeCommon, [Metadatum("Version", "1.0.0")]);
    var m := Manifest(map[VersionProperty := "1.2.3"], [pinned]);
    ParsesAsOneTwoThree();
    assert GetNukePackageReference(m.items) == Some(0);
    assert WithoutNuke(m.items) == [];
    assert m.properties[VersionProperty := "1.2.4"] == map[VersionProperty := "1.2.4"];
  }

  /** A prerelease with metadata is bumped to a plain three-part version. */
  lemma PrereleaseScenario()
    ensures var v := NuGetVersion(2, 0, 5, 1, "beta.1", "sha-abc");
            && ToFullString(v) == "2.0.5.1-beta.1+sha-abc"
            && Toggle(Manifest(map[VersionProperty := ToFullString(v)], []), NotWorking)
            == Success(Manifest(map[VersionProperty := "2.0.6"], []))
  {
    var v := NuGetVersion(2, 0, 5, 1, "beta.1", "sha-abc");
    PrereleaseString();
    assert IsValid(v) by {
      assert IsLabel("beta.1");
      assert IsLabel("sha-abc");
    }
    ParseToFullString(v);
    assert NextVersion(v) == Success(FromParts(2, 0, 6));
    assert ToFullString(FromParts(2, 0, 6)) == "2.0.6";
    var m := Manifest(map[VersionProperty := ToFullString(v)], []);
    assert m.properties[VersionProperty := "2.0.6"] == map[VersionProperty := "2.0.6"];
  }

  /** The normalized string of the prerelease used in `PrereleaseScenario`. */
  lemma PrereleaseString()
    ensures ToFullString(NuGetVersion(2, 0, 5, 1, "beta.1", "sha-abc")) == "2.0.5.1-beta.1+sha-abc"
  {
  }

  /** A project whose evaluation defines no `Version` fails before anything is changed. */
  lemma MissingVersionScenario(items: seq<Item>, behavior: Behavior)
    ensures Toggle(Manifest(map[], items), behavior) == Failure(InvalidVersion)
  {
    assert Split("", '.') == [""];
  }
}
