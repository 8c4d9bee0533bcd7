# MSBuild plugin: Build Tools provisioning and process-kill veto

This project models the core of the Jenkins MSBuild plugin. It covers two parts.

The first is the Build Tools installer. It works out where the Build Tools go on a node. It reads an
`--installPath` override out of the user's installer arguments and adds required flags to those
arguments. It also checks that the node runs Windows, and decides from `<installRoot>/config.json`
whether an install is stale or a modify run is due. It stages a `.vsconfig` component file in the
workspace, and looks up the bootstrapper URL for a Visual Studio release year.

The second is the process-kill veto. When the build platform reaps the processes of a build, the
plugin vetoes killing `mspdbsrv.exe`, the shared PDB server (JENKINS-9104).

The repository's behaviour is known here only through its two JUnit suites,
`MsBuildInstallerTest.java` and `MsBuildKillingVetoTest.java`. The model is a reference model of what those
tests pin down, stated for all inputs. Each test of a modelled operation is proved, as a lemma or (for
`testGetVs_BuildToolsExePath`) by the contract of `Paths.BuildToolsExePath`. The tests of the
operations listed under "Left out" have no counterpart. Where the tests
are silent, the model makes a choice, listed under "Choices where the tests are silent" below. Those
choices are this model's own and are not claimed to be the plugin's.

Modules, one per component:

- `Wrappers`: `Option` and `Result`.
- `Paths`: remote paths as a root string plus child segments, and the install-root, MSBuild-bin and
  setup-executable paths.
- `Arguments`: a tokenizer for installer argument strings, `ExtractInstallPath` and
  `EnsureArguments`.
- `Platform`: the Windows check over a node's environment map.
- `ConfigCache`: `NeedsUpdate` and `NeedsModify` over the parsed `config.json` files of a node,
  with the current time passed in.
- `VsConfig`: a remote file handle as a class whose content changes and which logs each call made on
  it, and `UseConfigFile`, which acts on it step by step.
- `VersionUrls`: the release-year to bootstrapper-URL table.
- `KillingVeto`: `VetoProcessKilling` over a process's argument list.

Inputs that the plugin would fetch from an outside system are parameters here:

- The node's environment map (`Platform`).
- The parsed `config.json` files and the current time (`ConfigCache`).
- The file handle's content before the call (`VsConfig`).
- The process's argument list (`KillingVeto`).

## Choices where the tests are silent

- Tokenizer. Blanks are space and tab. A token that starts with `"` runs to the next `"`. The quotes
  are dropped and the character after the closing quote starts a new token. A quote that is never
  closed takes the rest of the string. Any other token runs to the next blank, and quotes inside it
  are kept.
- `ExtractInstallPath`. A `--installPath` with nothing after it yields no path. Only the first
  `--installPath` counts.
- `EnsureArguments`. A flag already present as a token of the base is not added again. A flag that
  appears twice in the list of flags to add is added once, at its first place. A flag added to an
  empty base gets no leading space. Blanks at the end of the base are kept, so `--quiet ` with
  `--wait` gives `--quiet  --wait`, and a base of blanks only keeps them before the first flag.
- `NeedsUpdate`. Stale means strictly more than 86400 seconds since `lastUpdated`, so exactly 24 hours
  is still fresh. A missing file means an update is due. A record without `lastUpdated`, or one that
  does not parse, is an error.
- `NeedsModify`. A missing file or unparsable text is an error; a missing `needsModify` key means
  false. `lastUpdated` is not consulted.
- `GetUrlForVersion`. A year other than 2022 and 2019 yields `None`.
- `VetoProcessKilling`. The base name is what follows the last `\` or `/`, and case is ignored for
  ASCII letters.

## Model

| member | source | states |
|---|---|---|
| Paths.BuildToolsInstallPath | src/test/java/hudson/plugins/msbuild/MsBuildInstallerTest.java:61-76 | a non-empty override is the install root whatever the version; otherwise the root is the Visual Studio folder, then the version, then `\BuildTools\` |
| Paths.MsBuildBinPath | src/test/java/hudson/plugins/msbuild/MsBuildInstallerTest.java:78-92 | the bin folder is the child `\MSBuild\Current\Bin` of the install root, with or without an override |
| Paths.BuildToolsExePath | src/test/java/hudson/plugins/msbuild/MsBuildInstallerTest.java:94-99 | the setup executable is the child `vs_BuildTools.exe` of the given root |
| Paths.OverrideIgnoresVersion | src/test/java/hudson/plugins/msbuild/MsBuildInstallerTest.java:61-66 | with an override, install root and bin path are the same for any two versions |
| Paths.DefaultRootEndsWithVersion | src/test/java/hudson/plugins/msbuild/MsBuildInstallerTest.java:68-76 | without an override the install root ends with `\<version>\BuildTools\` |
| Paths.VersionOfDefaultRoot | src/test/java/hudson/plugins/msbuild/MsBuildInstallerTest.java:68-76 | the version can be read back out of the default install root |
| Paths.DefaultRootsAreDistinct | src/test/java/hudson/plugins/msbuild/MsBuildInstallerTest.java:68-76 | different versions get different default install roots |
| Paths.PathsForVersion2019 | src/test/java/hudson/plugins/msbuild/MsBuildInstallerTest.java:61-92 | the four test paths for 2019, with the override `D:\Custom\BuildTools` and without one |
| Arguments.TrimStart | src/test/java/hudson/plugins/msbuild/MsBuildInstallerTest.java:110-117 | the result is no longer than the input, the dropped characters are all blanks, and the result does not start with a blank |
| Arguments.TrimStartIsSuffix | src/test/java/hudson/plugins/msbuild/MsBuildInstallerTest.java:110-117 | what is left after trimming is the end of the input |
| Arguments.Tokens | src/test/java/hudson/plugins/msbuild/MsBuildInstallerTest.java:101-135 | there are never more tokens than characters |
| Arguments.NoTokensIffBlank | src/test/java/hudson/plugins/msbuild/MsBuildInstallerTest.java:101-117 | a string has no tokens iff it is all blanks |
| Arguments.PlainAlone | src/test/java/hudson/plugins/msbuild/MsBuildInstallerTest.java:155-161 | a plain token on its own is its single token, with no open quote |
| Arguments.ValueAfter | src/test/java/hudson/plugins/msbuild/MsBuildInstallerTest.java:128-135 | a value exists iff the flag occurs before the last token, and it is the token right after the first occurrence |
| Arguments.ExtractInstallPath | src/test/java/hudson/plugins/msbuild/MsBuildInstallerTest.java:101-135 | null arguments give no path; otherwise the path is the token after the first `--installPath` |
| Arguments.PlainTokenFirst | src/test/java/hudson/plugins/msbuild/MsBuildInstallerTest.java:110-117 | a plain word followed by a blank or the end is the first token and the scan goes on after it |
| Arguments.QuotedTokenFirst | src/test/java/hudson/plugins/msbuild/MsBuildInstallerTest.java:119-126 | a double-quoted value, blanks included, is one token without its quotes |
| Arguments.TokensOfJoin | src/test/java/hudson/plugins/msbuild/MsBuildInstallerTest.java:110-117 | plain tokens joined by spaces tokenize back to the same tokens |
| Arguments.TokensAppendPlain | src/test/java/hudson/plugins/msbuild/MsBuildInstallerTest.java:155-161 | appending a space and a plain flag to closed arguments appends exactly that token |
| Arguments.NoInstallPathInNull | src/test/java/hudson/plugins/msbuild/MsBuildInstallerTest.java:101-108 | null arguments yield no install path |
| Arguments.NoInstallPathWithoutFlag | src/test/java/hudson/plugins/msbuild/MsBuildInstallerTest.java:110-117 | arguments without an `--installPath` token yield no install path |
| Arguments.ValueAfterFirstFlag | src/test/java/hudson/plugins/msbuild/MsBuildInstallerTest.java:128-135 | the value after the first occurrence of a flag wins, whatever follows |
| Arguments.TokensWithQuotedValue | src/test/java/hudson/plugins/msbuild/MsBuildInstallerTest.java:119-126 | plain tokens, the flag and a quoted value tokenize to those tokens, the value, and the rest's tokens |
| Arguments.TokensWithPlainValue | src/test/java/hudson/plugins/msbuild/MsBuildInstallerTest.java:128-135 | the same with an unquoted value |
| Arguments.ExtractQuotedInstallPath | src/test/java/hudson/plugins/msbuild/MsBuildInstallerTest.java:119-135 | a quoted value after the first `--installPath` is the path, without quotes, whatever follows |
| Arguments.ExtractPlainInstallPath | src/test/java/hudson/plugins/msbuild/MsBuildInstallerTest.java:128-135 | an unquoted value after the first `--installPath` is the path |
| Arguments.NoInstallPathAmongPlain | src/test/java/hudson/plugins/msbuild/MsBuildInstallerTest.java:110-117 | space-separated plain flags none of which is `--installPath` yield no path |
| Arguments.ExtractFromArgumentsWithoutInstallPath | src/test/java/hudson/plugins/msbuild/MsBuildInstallerTest.java:110-117 | `--quiet --norestart` yields no install path |
| Arguments.ExtractQuotedPathWithBlank | src/test/java/hudson/plugins/msbuild/MsBuildInstallerTest.java:119-126 | `--quiet --installPath "C:\Program Files\MSBuild"` yields `C:\Program Files\MSBuild` |
| Arguments.ExtractFirstOfTwoInstallPaths | src/test/java/hudson/plugins/msbuild/MsBuildInstallerTest.java:128-135 | with a second `--installPath D:\MSBuild` the first path still wins |
| Arguments.EnsureArguments | src/test/java/hudson/plugins/msbuild/MsBuildInstallerTest.java:155-161 | the base arguments are kept as a prefix; the exact result is stated by `EnsureArgumentsSpelledOut` and `EnsureArgumentsOnEmptyBase` |
| Arguments.EnsureArgument | src/test/java/hudson/plugins/msbuild/MsBuildInstallerTest.java:155-161 | the arguments are kept as a prefix; the tokens afterwards are stated by `EnsureArgumentTokens` |
| Arguments.EnsureArgumentTokens | src/test/java/hudson/plugins/msbuild/MsBuildInstallerTest.java:155-161 | for a plain flag and arguments with no open quote, adding the flag leaves the tokens alone if it is there and appends it as one more token otherwise, and leaves no open quote |
| Arguments.EnsureArgumentsTokens | src/test/java/hudson/plugins/msbuild/MsBuildInstallerTest.java:155-161 | for plain flags and a base with no open quote, the base's tokens stay a prefix, every flag ends up present, and no other token appears |
| Arguments.EnsureArgumentsPresent | src/test/java/hudson/plugins/msbuild/MsBuildInstallerTest.java:155-161 | arguments already holding every flag are returned unchanged |
| Arguments.EnsureArgumentsIdempotent | src/test/java/hudson/plugins/msbuild/MsBuildInstallerTest.java:155-161 | for plain flags and a base with no open quote, ensuring the same flags twice gives what ensuring them once gives |
| Arguments.Missing | src/test/java/hudson/plugins/msbuild/MsBuildInstallerTest.java:155-161 | every kept flag is one of the flags to add and not yet present, every flag to add is present or kept, and no flag is kept twice |
| Arguments.IndexOf | src/test/java/hudson/plugins/msbuild/MsBuildInstallerTest.java:155-161 | the place of the first occurrence of a flag, or the length when it is absent |
| Arguments.MissingKeepsOrder | src/test/java/hudson/plugins/msbuild/MsBuildInstallerTest.java:155-161 | the kept flags come in the order of their first places among the flags to add |
| Arguments.MissingOfAbsent | src/test/java/hudson/plugins/msbuild/MsBuildInstallerTest.java:155-161 | when the flags are distinct and none is present, all of them are kept, in their order |
| Arguments.EnsureArgumentsSpelledOut | src/test/java/hudson/plugins/msbuild/MsBuildInstallerTest.java:155-161 | for any plain flags and a non-empty base with no open quote, the result is the base followed by the missing flags in order (`MissingKeepsOrder`), each once and each after one space |
| Arguments.EnsureArgumentsOnEmptyBase | src/test/java/hudson/plugins/msbuild/MsBuildInstallerTest.java:155-161 | for plain flags, on an empty base the result is the missing flags separated by single spaces, with no leading space |
| Arguments.EnsureRepeatedFlagOnce | src/test/java/hudson/plugins/msbuild/MsBuildInstallerTest.java:155-161 | `--quiet` with `--wait` given twice gives `--quiet --wait` |
| Arguments.EnsureArgumentsAppendsMissing | src/test/java/hudson/plugins/msbuild/MsBuildInstallerTest.java:155-161 | distinct plain flags missing from a non-empty base with no open quote are appended in order, each after one space |
| Arguments.EnsureWaitAndNoRestart | src/test/java/hudson/plugins/msbuild/MsBuildInstallerTest.java:155-161 | `--quiet` with `--wait` and `--norestart` gives `--quiet --wait --norestart` |
| Arguments.EnsureWaitAndNoRestartTwice | src/test/java/hudson/plugins/msbuild/MsBuildInstallerTest.java:155-161 | ensuring the test's flags on the test's result changes nothing |
| Platform.CheckIfOsIsWindows | src/test/java/hudson/plugins/msbuild/MsBuildInstallerTest.java:163-174 | true iff `OS` is present and equal to `Windows_NT` |
| Platform.MissingOsIsNotWindows | src/test/java/hudson/plugins/msbuild/MsBuildInstallerTest.java:163-174 | a node without `OS` is not Windows |
| Platform.PrefixIsNotEnough | src/test/java/hudson/plugins/msbuild/MsBuildInstallerTest.java:163-174 | a value that only starts with `Windows_NT` is not Windows |
| Platform.PartIsNotEnough | src/test/java/hudson/plugins/msbuild/MsBuildInstallerTest.java:163-174 | a proper prefix of `Windows_NT` is not Windows |
| Platform.OtherVariablesIgnored | src/test/java/hudson/plugins/msbuild/MsBuildInstallerTest.java:163-174 | variables other than `OS` do not change the answer |
| Platform.WindowsNodeIsWindows | src/test/java/hudson/plugins/msbuild/MsBuildInstallerTest.java:163-171 | `OS=Windows_NT` is Windows |
| Platform.LinuxNodeIsNotWindows | src/test/java/hudson/plugins/msbuild/MsBuildInstallerTest.java:172-173 | `OS=Linux` is not Windows |
| VsConfig.RemoteFile.Exists | src/test/java/hudson/plugins/msbuild/MsBuildInstallerTest.java:193-211 | answers whether the file has content, logs `exists`, changes nothing else |
| VsConfig.RemoteFile.ReadToString | src/test/java/hudson/plugins/msbuild/MsBuildInstallerTest.java:202-211 | returns an existing file's text and logs `readToString` |
| VsConfig.RemoteFile.Write | src/test/java/hudson/plugins/msbuild/MsBuildInstallerTest.java:193-211 | sets the content to the text and logs the write with its encoding |
| VsConfig.RemoteFile.Delete | src/test/java/hudson/plugins/msbuild/MsBuildInstallerTest.java:176-190 | removes the file and logs `delete` |
| VsConfig.UseConfigFile | src/test/java/hudson/plugins/msbuild/MsBuildInstallerTest.java:176-211 | answers whether the content is non-null and non-empty; the calls made are exactly `Calls` and the new content is `Outcome` |
| VsConfig.InactiveOnlyDeletes | src/test/java/hudson/plugins/msbuild/MsBuildInstallerTest.java:176-190 | null or empty content makes one `delete` and no other call, and leaves no file |
| VsConfig.ActiveNeverDeletes | src/test/java/hudson/plugins/msbuild/MsBuildInstallerTest.java:192-211 | real content first probes `exists` and never deletes |
| VsConfig.ReadsOnlyExistingFile | src/test/java/hudson/plugins/msbuild/MsBuildInstallerTest.java:192-211 | `readToString` is called only on a file that exists |
| VsConfig.WritesIffDiffers | src/test/java/hudson/plugins/msbuild/MsBuildInstallerTest.java:192-211 | a write happens iff the content is real and the file does not already hold it |
| VsConfig.WritesDesiredTextAsUtf8 | src/test/java/hudson/plugins/msbuild/MsBuildInstallerTest.java:192-211 | every write puts the desired text with encoding `UTF-8` and is the last call |
| VsConfig.OutcomeMatchesDesired | src/test/java/hudson/plugins/msbuild/MsBuildInstallerTest.java:176-211 | afterwards the file exists iff the content is real, and then holds exactly that content |
| VsConfig.SecondRunIsQuiet | src/test/java/hudson/plugins/msbuild/MsBuildInstallerTest.java:192-211 | a second run with the same content changes nothing and writes nothing |
| VsConfig.NullContent | src/test/java/hudson/plugins/msbuild/MsBuildInstallerTest.java:176-182 | null content: only `delete`, answer false |
| VsConfig.EmptyContent | src/test/java/hudson/plugins/msbuild/MsBuildInstallerTest.java:184-190 | empty content: only `delete`, answer false |
| VsConfig.ContentForMissingFile | src/test/java/hudson/plugins/msbuild/MsBuildInstallerTest.java:192-200 | a missing file is probed and then written as `UTF-8`, answer true |
| VsConfig.ContentReplacesOld | src/test/java/hudson/plugins/msbuild/MsBuildInstallerTest.java:202-211 | `old config` is read, then `new config` is written as `UTF-8`, answer true |
| ConfigCache.ConfigPath | src/test/java/hudson/plugins/msbuild/MsBuildInstallerTest.java:53 | the record is the child `config.json` of the install root |
| ConfigCache.NeedsUpdate | src/test/java/hudson/plugins/msbuild/MsBuildInstallerTest.java:223-244 | an error exactly for a record without timestamp; not due exactly when the record's timestamp is at most 24 hours before `now` |
| ConfigCache.NeedsModify | src/test/java/hudson/plugins/msbuild/MsBuildInstallerTest.java:213-221 | missing and unparsable files are errors; true exactly when the record's flag is true |
| ConfigCache.MissingRecordNeedsUpdate | src/test/java/hudson/plugins/msbuild/MsBuildInstallerTest.java:223-244 | without a record an update is due |
| ConfigCache.StaleStaysStale | src/test/java/hudson/plugins/msbuild/MsBuildInstallerTest.java:235-244 | once an update is due it stays due at every later time |
| ConfigCache.FreshWasFresh | src/test/java/hudson/plugins/msbuild/MsBuildInstallerTest.java:223-233 | fresh now means fresh at every earlier time |
| ConfigCache.WindowBoundary | src/test/java/hudson/plugins/msbuild/MsBuildInstallerTest.java:223-244 | fresh at exactly 24 hours after the timestamp, stale one second later |
| ConfigCache.OnlyTheRecordMatters | src/test/java/hudson/plugins/msbuild/MsBuildInstallerTest.java:213-244 | both answers depend on `<root>/config.json` alone |
| ConfigCache.StampedRecordIsFresh | src/test/java/hudson/plugins/msbuild/MsBuildInstallerTest.java:223-233 | a record freshly stamped after an install is fresh for 24 hours and asks for no modify run |
| ConfigCache.AbsentFlagMeansNoModify | src/test/java/hudson/plugins/msbuild/MsBuildInstallerTest.java:213-221 | a record without the `needsModify` key asks for no modify run |
| ConfigCache.UpdatedJustNow | src/test/java/hudson/plugins/msbuild/MsBuildInstallerTest.java:223-233 | a timestamp equal to `now` means no update is due |
| ConfigCache.UpdatedLongAgo | src/test/java/hudson/plugins/msbuild/MsBuildInstallerTest.java:235-244 | timestamp 1619300929 is stale at any time more than a day later |
| ConfigCache.ModifyRequested | src/test/java/hudson/plugins/msbuild/MsBuildInstallerTest.java:213-221 | `{"needsModify": true}` asks for a modify run |
| VersionUrls.ReleaseUrl | src/test/java/hudson/plugins/msbuild/MsBuildInstallerTest.java:255-261 | a URL is `https://aka.ms/vs/`, the major version, then `/release/vs_buildtools.exe` |
| VersionUrls.GetUrlForVersion | src/test/java/hudson/plugins/msbuild/MsBuildInstallerTest.java:255-261 | a URL exactly for 2022 and 2019, built from their major versions |
| VersionUrls.UrlsShareShape | src/test/java/hudson/plugins/msbuild/MsBuildInstallerTest.java:255-261 | every known URL has the common prefix and suffix |
| VersionUrls.MajorOfReleaseUrl | src/test/java/hudson/plugins/msbuild/MsBuildInstallerTest.java:255-261 | the major version can be read back out of its URL |
| VersionUrls.ReleaseUrlsAreDistinct | src/test/java/hudson/plugins/msbuild/MsBuildInstallerTest.java:255-261 | different major versions have different URLs |
| VersionUrls.KnownYearsAreDistinct | src/test/java/hudson/plugins/msbuild/MsBuildInstallerTest.java:255-261 | 2022 and 2019 download different bootstrappers |
| VersionUrls.UrlFor2022 | src/test/java/hudson/plugins/msbuild/MsBuildInstallerTest.java:257-258 | 2022 maps to `https://aka.ms/vs/17/release/vs_buildtools.exe` |
| VersionUrls.UrlFor2019 | src/test/java/hudson/plugins/msbuild/MsBuildInstallerTest.java:259-260 | 2019 maps to `https://aka.ms/vs/16/release/vs_buildtools.exe` |
| VersionUrls.UnknownYearHasNoUrl | src/test/java/hudson/plugins/msbuild/MsBuildInstallerTest.java:255-261 | any other year has no URL |
| KillingVeto.BaseName | src/test/java/hudson/plugins/msbuild/MsBuildKillingVetoTest.java:74-79 | the base name is the longest separator-free suffix of the path |
| KillingVeto.LowerAscii | src/test/java/hudson/plugins/msbuild/MsBuildKillingVetoTest.java:67-72 | ASCII capitals map to lower case and everything else is kept |
| KillingVeto.VetoProcessKilling | src/test/java/hudson/plugins/msbuild/MsBuildKillingVetoTest.java:49-86 | a veto iff the process exists, has arguments, and argument 0's base name is `mspdbsrv.exe` in any case; the veto carries the fixed message |
| KillingVeto.BaseNameUnderDirectory | src/test/java/hudson/plugins/msbuild/MsBuildKillingVetoTest.java:74-79 | the base name of a directory, a separator and a name is that name |
| KillingVeto.BaseNameOfPlainName | src/test/java/hudson/plugins/msbuild/MsBuildKillingVetoTest.java:74-79 | a name without separators is its own base name |
| KillingVeto.NullProcessNotVetoed | src/test/java/hudson/plugins/msbuild/MsBuildKillingVetoTest.java:49-52 | a null process yields no veto |
| KillingVeto.EmptyArgumentsNotVetoed | src/test/java/hudson/plugins/msbuild/MsBuildKillingVetoTest.java:54-58 | an empty argument list yields no veto |
| KillingVeto.OnlyExecutableCounts | src/test/java/hudson/plugins/msbuild/MsBuildKillingVetoTest.java:60-72 | arguments after the executable do not change the answer |
| KillingVeto.VetoByFileName | src/test/java/hudson/plugins/msbuild/MsBuildKillingVetoTest.java:60-86 | under any directory and either separator, the file name alone decides the veto |
| KillingVeto.VetoIgnoresCase | src/test/java/hudson/plugins/msbuild/MsBuildKillingVetoTest.java:67-72 | executables whose base names differ only in case get the same answer |
| KillingVeto.SparesHelper | src/test/java/hudson/plugins/msbuild/MsBuildKillingVetoTest.java:60-65 | the test's `mspdbsrv.exe` path is vetoed with the fixed message |
| KillingVeto.SparesHelperInAnyCase | src/test/java/hudson/plugins/msbuild/MsBuildKillingVetoTest.java:67-72 | `MsPdbSrv.exe` is vetoed too |
| KillingVeto.SparesHelperAnywhere | src/test/java/hudson/plugins/msbuild/MsBuildKillingVetoTest.java:74-79 | `D:/Tools/mspdbsrv.exe` is vetoed |
| KillingVeto.LeavesOtherToolsAlone | src/test/java/hudson/plugins/msbuild/MsBuildKillingVetoTest.java:81-86 | any other file name in the Visual Studio bin folder is not vetoed |
| KillingVeto.LeavesCompilerAndLinkerAlone | src/test/java/hudson/plugins/msbuild/MsBuildKillingVetoTest.java:84-85 | `cl.exe` and `link.exe` are not vetoed |
| KillingVeto.LeavesOthersAnywhere | src/test/java/hudson/plugins/msbuild/MsBuildKillingVetoTest.java:83 | `D:/Tools/somethingElse.exe` is not vetoed |

## Left out

- `downloadFile` (MsBuildInstallerTest.java:246-253): an HTTP download streamed to a remote file. This is network I/O.
- `DescriptorImpl.getDisplayName` and `isApplicable` (MsBuildInstallerTest.java:263-274): a UI label and extension registration.
- Node, Computer, VirtualChannel and the remote transport behind a file path: paths are plain values here, and a
  remote file is an object in the same memory.
- Fetching a node's environment: `CheckIfOsIsWindows` takes the map.
- TrimStart: that the result is the end of the input is stated by the separate lemma
  `TrimStartIsSuffix`, not by the function's own contract, which keeps the tokenizer proofs small.
- EnsureArgumentsIdempotent: idempotence is proved only for flags that are single plain tokens (no
  blank, no quote) and a base with no open quote. A flag holding a blank, such as `a b`, is never
  found as one token, so each call appends it again. A base with an unclosed quote swallows the
  appended flag into the quoted token, so each call appends it again as well.
- EnsureArgumentsSpelledOut: the exact result string is stated for the same inputs only, plain
  flags and a base with no open quote.
- EnsureArgumentTokens: stated for a plain flag and arguments with no open quote only, for the
  reasons given under EnsureArgumentsIdempotent: `"q` with `--w` added reads back as the one token
  `q --w`.
- EnsureArgumentsTokens: stated for plain flags and a base with no open quote only; a flag holding a
  blank, such as `a b`, is added but never found as one token.
- EnsureArgumentsAppendsMissing: stated for plain flags and a base with no open quote only; with
  `a b` and then `a` to add to `x`, the second flag is already a token and the result is `x a b`.
- EnsureArgumentsOnEmptyBase: stated for plain flags only; `a b` given twice on an empty base is
  added twice, as `a b a b`.
- CheckIfOsIsWindows: does not model the case-insensitive variable names of Jenkins's environment map;
  the key must be exactly `OS`.
- `IOException` and `InterruptedException` from transport: the model has no transport failures.
- Parsing the JSON text of `config.json`: `ConfigCache` takes the parsed record, or the fact that the text does not
  parse. Writing the record after an install is described by `StampedRecordIsFresh` only.
- The clock: `NeedsUpdate` takes `now` in unix seconds.
- UTF-8 byte encoding of `.vsconfig`: only the encoding tag passed to `write` is recorded.
- UseConfigFile: resolving `<workspace>/.vsconfig` to a handle is not modelled. The method takes the
  handle together with the workspace and requires that the handle be that child.
- The test process mock's `kill`, `killRecursively`, `getPid`, `getParent`, `getEnvironmentVariables` and `act`
  (MsBuildKillingVetoTest.java:88-125): only the argument list feeds the veto.
- Mockito stubbing: only the observable call sequence on the `.vsconfig` handle is kept.
- The installer's bean getters and setters (MsBuildInstallerTest.java:137-153): plain field round trips.
- VetoProcessKilling: case is ignored for ASCII letters only, not for other Unicode letters.
