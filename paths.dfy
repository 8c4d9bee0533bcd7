/**
 * Where the Build Tools live on a node. A remote path is kept as it is
 * built, a root string with child segments appended, so two paths are
 * equal exactly when they were built from the same root and segments.
 */
module Paths {
  import opened Wrappers

  /** A path on the target node: a root string, or a child segment of a path. */
  datatype Path = Root(s: string) | Child(parent: Path, name: string)

  /** The default Visual Studio folder, ending in a backslash. */
  const VisualStudioFolder: string := "C:\\Program Files (x86)\\Microsoft Visual Studio\\"

  /** What follows the version in the default install root. */
  const BuildToolsFolder: string := "\\BuildTools\\"

  /** The MSBuild binaries, relative to the install root. */
  const MsBuildBinSegment: string := "\\MSBuild\\Current\\Bin"

  /** The Build Tools setup executable, relative to the install root. */
  const SetupExeName: string := "vs_BuildTools.exe"

  /** Whether the caller supplied an install path override (null and "" do not count). */
  predicate HasOverride(installPath: Option<string>) {
    installPath.Some? && installPath.value != ""
  }

  /** The default install root of a version: its folder under the Visual Studio folder. */
  function DefaultInstallRoot(version: string): (root: string)
    ensures VisualStudioFolder <= root
    ensures root[|VisualStudioFolder|..] == version + BuildToolsFolder
  {
    VisualStudioFolder + version + BuildToolsFolder
  }

  /**
   * The Build Tools install root: the override when one is given, whatever
   * the version; otherwise the version's default folder. The version is
   * never checked.
   */
  function BuildToolsInstallPath(version: string, installPath: Option<string>): (root: Path)
    ensures root.Root?
    ensures HasOverride(installPath) ==> root.s == installPath.value
    ensures !HasOverride(installPath) ==> root.s == DefaultInstallRoot(version)
  {
    if HasOverride(installPath) then Root(installPath.value) else Root(DefaultInstallRoot(version))
  }

  /** The MSBuild binary folder: one fixed segment under the install root. */
  function MsBuildBinPath(version: string, installPath: Option<string>): (bin: Path)
    ensures bin.Child? && bin.name == MsBuildBinSegment
    ensures bin.parent == BuildToolsInstallPath(version, installPath)
  {
    Child(BuildToolsInstallPath(version, installPath), MsBuildBinSegment)
  }

  /** The setup executable inside an install root. */
  function BuildToolsExePath(installRoot: Path): (exe: Path)
    ensures exe.Child? && exe.parent == installRoot && exe.name == SetupExeName
  {
    Child(installRoot, SetupExeName)
  }

  /** With an override, the version plays no part in any of the derived paths. */
  lemma OverrideIgnoresVersion(v1: string, v2: string, installPath: Option<string>)
    requires HasOverride(installPath)
    ensures BuildToolsInstallPath(v1, installPath) == BuildToolsInstallPath(v2, installPath) == Root(installPath.value)
    ensures MsBuildBinPath(v1, installPath) == MsBuildBinPath(v2, installPath) == Child(Root(installPath.value), MsBuildBinSegment)
  {
  }

  /** Without an override, the install root ends with the version's own folder. */
  lemma DefaultRootEndsWithVersion(version: string, installPath: Option<string>)
    requires !HasOverride(installPath)
    ensures var s := BuildToolsInstallPath(version, installPath).s;
            var tail := "\\" + version + BuildToolsFolder;
            |tail| <= |s| && s[|s| - |tail|..] == tail
  {
    var s := BuildToolsInstallPath(version, installPath).s;
    var tail := "\\" + version + BuildToolsFolder;
    assert s == VisualStudioFolder[..|VisualStudioFolder| - 1] + tail;
  }

  /** The version can be read back from its default install root. */
  lemma VersionOfDefaultRoot(version: string)
    ensures var root := DefaultInstallRoot(version);
            |VisualStudioFolder| + |BuildToolsFolder| <= |root| &&
            root[|VisualStudioFolder|..|root| - |BuildToolsFolder|] == version
  {
    var root := DefaultInstallRoot(version);
    assert root[|VisualStudioFolder|..] == version + BuildToolsFolder;
    assert root[|VisualStudioFolder|..|root| - |BuildToolsFolder|] == (version + BuildToolsFolder)[..|version|];
  }

  /** Different versions never share a default install root. */
  lemma DefaultRootsAreDistinct(v1: string, v2: string)
    requires v1 != v2
    ensures BuildToolsInstallPath(v1, None) != BuildToolsInstallPath(v2, None)
  {
    VersionOfDefaultRoot(v1);
    VersionOfDefaultRoot(v2);
  }

  /** The install roots and binary folders the installer tests expect. */
  lemma PathsForVersion2019()
    ensures BuildToolsInstallPath("2019", Some("D:\\Custom\\BuildTools")) == Root("D:\\Custom\\BuildTools")
    ensures BuildToolsInstallPath("2019", None) == Root("C:\\Program Files (x86)\\Microsoft Visual Studio\\" + "2019" + "\\BuildTools\\")
    ensures MsBuildBinPath("2019", Some("D:\\Custom\\BuildTools")) == Child(Root("D:\\Custom\\BuildTools"), "\\MSBuild\\Current\\Bin")
    ensures MsBuildBinPath("2019", None) ==
            Child(Root("C:\\Program Files (x86)\\Microsoft Visual Studio\\" + "2019" + "\\BuildTools\\"), "\\MSBuild\\Current\\Bin")
  {
  }
}
