/**
 * The download location of the Build Tools bootstrapper for each supported
 * Visual Studio release year.
 */
module VersionUrls {
  import opened Wrappers

  /** What every bootstrapper URL starts with. */
  const UrlPrefix: string := "https://aka.ms/vs/"

  /** What every bootstrapper URL ends with. */
  const UrlSuffix: string := "/release/vs_buildtools.exe"

  /** The bootstrapper URL of a Visual Studio major version such as `17`. */
  function ReleaseUrl(major: string): (url: string)
    ensures |url| == |UrlPrefix| + |major| + |UrlSuffix|
    ensures UrlPrefix <= url
    ensures url[|UrlPrefix|..][..|major|] == major
    ensures url[|UrlPrefix| + |major|..] == UrlSuffix
  {
    UrlPrefix + major + UrlSuffix
  }

  /** Release years and their Visual Studio major versions. */
  const MajorVersions: map<string, string> := map["2022" := "17", "2019" := "16"]

  /** The bootstrapper URL of a release year; `None` for a year not in the table. */
  function GetUrlForVersion(version: string): (url: Option<string>)
    ensures url.Some? <==> version == "2022" || version == "2019"
    ensures url.Some? ==> url.value == ReleaseUrl(MajorVersions[version])
  {
    if version in MajorVersions then Some(ReleaseUrl(MajorVersions[version])) else None
  }

  /** Every known year's URL has the common prefix and suffix. */
  lemma UrlsShareShape(version: string)
    requires GetUrlForVersion(version).Some?
    ensures UrlPrefix <= GetUrlForVersion(version).value
    ensures UrlSuffix <= GetUrlForVersion(version).value[|UrlPrefix| + |MajorVersions[version]|..]
  {
  }

  /** The major version can be read back from a URL. */
  lemma MajorOfReleaseUrl(major: string, url: string)
    requires url == ReleaseUrl(major)
    ensures url[|UrlPrefix|..|url| - |UrlSuffix|] == major
  {
    assert url[|UrlPrefix|..|url| - |UrlSuffix|] == url[|UrlPrefix|..][..|major|];
  }

  /** Different major versions download from different URLs. */
  lemma ReleaseUrlsAreDistinct(major1: string, major2: string)
    requires major1 != major2
    ensures ReleaseUrl(major1) != ReleaseUrl(major2)
  {
    MajorOfReleaseUrl(major1, ReleaseUrl(major1));
    MajorOfReleaseUrl(major2, ReleaseUrl(major2));
  }

  /** The two supported years download different bootstrappers. */
  lemma KnownYearsAreDistinct()
    ensures GetUrlForVersion("2022") != GetUrlForVersion("2019")
  {
    ReleaseUrlsAreDistinct("17", "16");
  }

  /** The installer test for 2022. */
  lemma UrlFor2022(version: string)
    requires version == "2022"
    ensures GetUrlForVersion(version) == Some("https://aka.ms/vs/17/release/vs_buildtools.exe")
  {
    assert MajorVersions[version] == "17";
    assert UrlPrefix + "17" == "https://aka.ms/vs/17";
    assert "https://aka.ms/vs/17" + UrlSuffix == "https://aka.ms/vs/17/release/vs_buildtools.exe";
  }


  /** The installer test for 2019. */
  lemma UrlFor2019(version: string)
    requires version == "2019"
    ensures GetUrlForVersion(version) == Some("https://aka.ms/vs/16/release/vs_buildtools.exe")
  {
    assert MajorVersions[version] == "16";
    assert UrlPrefix + "16" == "https://aka.ms/vs/16";
    assert "https://aka.ms/vs/16" + UrlSuffix == "https://aka.ms/vs/16/release/vs_buildtools.exe";
  }


  /** A year the table does not know, such as 2017, has no URL. */
  lemma UnknownYearHasNoUrl(version: string)
    requires version != "2022" && version != "2019"
    ensures GetUrlForVersion(version).None?
  {
  }
}
