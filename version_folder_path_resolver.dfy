/** The layout of a local package folder: from a root directory, a case
    policy and a (package id, version) pair, the directories and file names
    under which a package, its manifest, its hash file and its download
    marker are stored.

    Paths are lists of segments. `Path.Combine` joins them; an empty string
    contributes no segment, as `Path.Combine` returns the other argument
    unchanged when one of them is empty. */
module PathResolver {

  import opened Ascii
  import opened PackagingCoreConstants

  /** A directory or file path, as the list of its segments. */
  type Path = seq<string>

  /** The segments a string adds to a path: none when it is empty. */
  function Segment(s: string): (p: Path)
    ensures |p| <= 1
    ensures p == [] <==> s == ""
    ensures p != [] ==> p[0] == s
  {
    if s == "" then [] else [s]
  }

  /** `Path.Combine(a, b)` for a `b` that is not rooted. */
  function Combine(a: Path, b: Path): (p: Path)
    ensures |p| == |a| + |b|
    ensures p[..|a|] == a && p[|a|..] == b
  {
    a + b
  }

  /** The directory a path lies in, and its last segment. */
  function Parent(p: Path): (q: Path)
    requires p != []
    ensures |q| == |p| - 1
  {
    p[..|p| - 1]
  }

  function Last(p: Path): (s: string)
    requires p != []
    ensures p == Parent(p) + [s]
  {
    p[|p| - 1]
  }

  /** A single, non-empty path segment: no directory separator inside it. */
  predicate IsSegmentName(s: string) {
    s != "" && forall i :: 0 <= i < |s| ==> s[i] != '/' && s[i] != '\\'
  }

  /** `s` ends with `suffix`. */
  predicate EndsWith(s: string, suffix: string) {
    |suffix| <= |s| && s[|s| - |suffix|..] == suffix
  }

  /** The one-argument constructor: ids and versions are lower-cased. */
  function New(rootPath: Path): (r: VersionFolderPathResolver)
    ensures r.RootPath == rootPath
    ensures r.IsLowerCase
  {
    VersionFolderPathResolver(rootPath, true)
  }

  /** A resolver keeps the root path and the case policy it was built with;
      being a value, it never changes afterwards. */
  datatype VersionFolderPathResolver = VersionFolderPathResolver(RootPath: Path, IsLowerCase: bool)
  {
    /** The package id as it appears in names: lower-cased when the
        policy says so, otherwise unchanged. */
    function Normalize(packageId: string): (r: string)
      ensures |r| == |packageId|
      ensures EqualsIgnoreCase(r, packageId)
      ensures IsLowerCase ==> AllLower(r)
      ensures !IsLowerCase ==> r == packageId
    {
      if IsLowerCase then
        ToLowerIdempotent(packageId);
        ToLowerEqualIffEqualsIgnoreCase(ToLower(packageId), packageId);
        ToLowerAllLower(packageId);
        ToLower(packageId)
      else
        packageId
    }

    /** The version as it appears in names: folded under the same policy
        as the id. */
    function NormalizeVersion(version: string): (r: string)
      ensures r == Normalize(version)
    {
      if IsLowerCase then ToLower(version) else version
    }

    /** The directory, relative to the root, that holds every installed
        version of a package. */
    function GetVersionListDirectory(packageId: string): (d: string)
      ensures EqualsIgnoreCase(d, packageId)
      ensures IsLowerCase ==> AllLower(d)
      ensures !IsLowerCase ==> d == packageId
    {
      Normalize(packageId)
    }

    /** The directory of one version, relative to the root. */
    function GetPackageDirectory(packageId: string, version: string): (p: Path)
      ensures packageId != "" && version != "" ==>
                p == [Normalize(packageId), NormalizeVersion(version)]
    {
      Combine(Segment(GetVersionListDirectory(packageId)), Segment(NormalizeVersion(version)))
    }

    /** The version-list directory under the root. */
    function GetVersionListPath(packageId: string): (p: Path)
      ensures packageId != "" ==> p == RootPath + [Normalize(packageId)]
      ensures packageId == "" ==> p == RootPath
    {
      Combine(RootPath, Segment(GetVersionListDirectory(packageId)))
    }

    /** The install directory: the version directory, directly inside the
        version-list directory, directly inside the root. */
    function GetInstallPath(packageId: string, version: string): (p: Path)
      ensures p == GetVersionListPath(packageId) + Segment(NormalizeVersion(version))
      ensures packageId != "" && version != "" ==>
                |p| == |RootPath| + 2 && Parent(p) == GetVersionListPath(packageId) &&
                Parent(Parent(p)) == RootPath
    {
      Combine(RootPath, GetPackageDirectory(packageId, version))
    }

    /** `<id>.<version>.nupkg`. */
    function GetPackageFileName(packageId: string, version: string): (n: string)
      ensures |n| == |packageId| + 1 + |version| + |NupkgExtension|
      ensures n[..|packageId| + 1] == Normalize(packageId) + "."
      ensures EndsWith(n, NupkgExtension)
      ensures n[|packageId| + 1..|n| - |NupkgExtension|] == NormalizeVersion(version)
    {
      Normalize(packageId) + "." + NormalizeVersion(version) + NupkgExtension
    }

    /** `<id>.<version>.nupkg.sha512`: the package file name followed by
        ".sha512", whatever hash algorithm produced the file's content. */
    function GetHashFileName(packageId: string, version: string): (n: string)
      ensures n == GetPackageFileName(packageId, version) + ".sha512"
      ensures EndsWith(n, HashFileExtension)
    {
      HashFileExtensionExtendsNupkg();
      Normalize(packageId) + "." + NormalizeVersion(version) + HashFileExtension
    }

    /** `<id>.nuspec`. */
    function GetManifestFileName(packageId: string, version: string): (n: string)
      ensures |n| == |packageId| + |NuspecExtension|
      ensures n[..|packageId|] == Normalize(packageId)
      ensures n[|packageId|..] == NuspecExtension
    {
      Normalize(packageId) + NuspecExtension
    }

    /** `<id>.packagedownload.marker`. */
    function GetPackageDownloadMarkerFileName(packageId: string): (n: string)
      ensures |n| == |packageId| + |PackageDownloadMarkerFileExtension|
      ensures n[..|packageId|] == Normalize(packageId)
      ensures n[|packageId|..] == PackageDownloadMarkerFileExtension
    {
      Normalize(packageId) + PackageDownloadMarkerFileExtension
    }

    /** The package file, directly inside the install directory. */
    function GetPackageFilePath(packageId: string, version: string): (p: Path)
      ensures p != [] && Parent(p) == GetInstallPath(packageId, version)
      ensures Last(p) == GetPackageFileName(packageId, version)
    {
      Combine(GetInstallPath(packageId, version), Segment(GetPackageFileName(packageId, version)))
    }

    /** The manifest file, directly inside the install directory; the id is
        normalized once more before the call, which changes nothing. */
    function GetManifestFilePath(packageId: string, version: string): (p: Path)
      ensures p != [] && Parent(p) == GetInstallPath(packageId, version)
      ensures Last(p) == GetManifestFileName(packageId, version)
    {
      var id := Normalize(packageId);
      NormalizeIdempotent(packageId);
      Combine(GetInstallPath(id, version), Segment(GetManifestFileName(id, version)))
    }

    /** The hash file, directly inside the install directory. */
    function GetHashPath(packageId: string, version: string): (p: Path)
      ensures p != [] && Parent(p) == GetInstallPath(packageId, version)
      ensures Last(p) == GetHashFileName(packageId, version)
    {
      Combine(GetInstallPath(packageId, version), Segment(GetHashFileName(packageId, version)))
    }

    /** Normalizing twice is normalizing once. */
    lemma NormalizeIdempotent(packageId: string)
      ensures Normalize(Normalize(packageId)) == Normalize(packageId)
      ensures NormalizeVersion(NormalizeVersion(packageId)) == NormalizeVersion(packageId)
    {
    }
  }

  /** The manifest name never depends on the version. */
  lemma ManifestFileNameIgnoresVersion(r: VersionFolderPathResolver, packageId: string, v1: string, v2: string)
    ensures r.GetManifestFileName(packageId, v1) == r.GetManifestFileName(packageId, v2)
    ensures r.GetManifestFileName(packageId, v1) == r.Normalize(packageId) + NuspecExtension
  {
  }

  /** Under the lower-case policy, ids and versions that are equal ignoring
      case give the same names and paths. */
  lemma {:induction false} LowerCaseLayoutIgnoresCase(r: VersionFolderPathResolver,
                                                      id1: string, v1: string, id2: string, v2: string)
    requires r.IsLowerCase
    requires EqualsIgnoreCase(id1, id2) && EqualsIgnoreCase(v1, v2)
    ensures r.GetVersionListPath(id1) == r.GetVersionListPath(id2)
    ensures r.GetInstallPath(id1, v1) == r.GetInstallPath(id2, v2)
    ensures r.GetPackageFileName(id1, v1) == r.GetPackageFileName(id2, v2)
    ensures r.GetHashFileName(id1, v1) == r.GetHashFileName(id2, v2)
    ensures r.GetManifestFileName(id1, v1) == r.GetManifestFileName(id2, v2)
    ensures r.GetPackageDownloadMarkerFileName(id1) == r.GetPackageDownloadMarkerFileName(id2)
    ensures r.GetPackageFilePath(id1, v1) == r.GetPackageFilePath(id2, v2)
    ensures r.GetHashPath(id1, v1) == r.GetHashPath(id2, v2)
    ensures r.GetManifestFilePath(id1, v1) == r.GetManifestFilePath(id2, v2)
  {
    ToLowerEqualIffEqualsIgnoreCase(id1, id2);
    ToLowerEqualIffEqualsIgnoreCase(v1, v2);
  }

  /** In particular, upper-casing the id and the version changes no name
      and no path. */
  lemma {:induction false} LowerCaseLayoutIgnoresUpperCasing(r: VersionFolderPathResolver, packageId: string, version: string)
    requires r.IsLowerCase
    ensures r.GetVersionListPath(ToUpper(packageId)) == r.GetVersionListPath(packageId)
    ensures r.GetInstallPath(ToUpper(packageId), ToUpper(version)) == r.GetInstallPath(packageId, version)
    ensures r.GetPackageFileName(ToUpper(packageId), ToUpper(version)) == r.GetPackageFileName(packageId, version)
    ensures r.GetHashFileName(ToUpper(packageId), ToUpper(version)) == r.GetHashFileName(packageId, version)
    ensures r.GetManifestFileName(ToUpper(packageId), ToUpper(version)) == r.GetManifestFileName(packageId, version)
    ensures r.GetPackageDownloadMarkerFileName(ToUpper(packageId)) == r.GetPackageDownloadMarkerFileName(packageId)
    ensures r.GetPackageFilePath(ToUpper(packageId), ToUpper(version)) == r.GetPackageFilePath(packageId, version)
    ensures r.GetHashPath(ToUpper(packageId), ToUpper(version)) == r.GetHashPath(packageId, version)
    ensures r.GetManifestFilePath(ToUpper(packageId), ToUpper(version)) == r.GetManifestFilePath(packageId, version)
  {
    ToLowerOfToUpper(packageId);
    ToLowerOfToUpper(version);
    ToLowerEqualIffEqualsIgnoreCase(ToUpper(packageId), packageId);
    ToLowerEqualIffEqualsIgnoreCase(ToUpper(version), version);
    LowerCaseLayoutIgnoresCase(r, ToUpper(packageId), ToUpper(version), packageId, version);
  }

  /** For ids and versions that are single segments (non-empty, with no
      directory separator), the install directory identifies the package: up
      to case under the lower-case policy, exactly otherwise. */
  lemma {:induction false} InstallPathIdentifiesPackage(r: VersionFolderPathResolver,
                                                        id1: string, v1: string, id2: string, v2: string)
    requires IsSegmentName(id1) && IsSegmentName(v1) && IsSegmentName(id2) && IsSegmentName(v2)
    ensures r.IsLowerCase ==>
              (r.GetInstallPath(id1, v1) == r.GetInstallPath(id2, v2) <==>
               EqualsIgnoreCase(id1, id2) && EqualsIgnoreCase(v1, v2))
    ensures !r.IsLowerCase ==>
              (r.GetInstallPath(id1, v1) == r.GetInstallPath(id2, v2) <==> id1 == id2 && v1 == v2)
  {
    var p1, p2 := r.GetInstallPath(id1, v1), r.GetInstallPath(id2, v2);
    var n := |r.RootPath|;
    if p1 == p2 {
      assert p1[n] == r.Normalize(id1) && p2[n] == r.Normalize(id2);
      assert p1[n + 1] == r.NormalizeVersion(v1) && p2[n + 1] == r.NormalizeVersion(v2);
    }
    ToLowerEqualIffEqualsIgnoreCase(id1, id2);
    ToLowerEqualIffEqualsIgnoreCase(v1, v2);
  }

  /** The layout does not reject an empty id: its segment disappears, and
      the install directory of ("", v) is the version-list directory of v. */
  lemma EmptyIdInstallPath(r: VersionFolderPathResolver, version: string)
    ensures r.GetVersionListPath("") == r.RootPath
    ensures r.GetInstallPath("", version) == r.GetVersionListPath(version)
  {
  }

  /** The hash file name ends in ".sha512" for every id and version: the
      layout has no input that names a hash algorithm. */
  lemma HashFileNameEndsWithSha512(r: VersionFolderPathResolver, packageId: string, version: string)
    ensures EndsWith(r.GetHashFileName(packageId, version), ".sha512")
    ensures EndsWith(r.GetHashFileName(packageId, version), ".nupkg.sha512")
  {
  }

  /** The names the sample driver gets for "HelloNuget" 1.0.2 from the
      one-argument constructor. */
  lemma HelloNugetNames(root: Path, id: string, v: string)
    requires id == "HelloNuget" && v == "1.0.2"
    ensures New(root).GetPackageFileName(id, v) == "hellonuget.1.0.2.nupkg"
    ensures New(root).GetManifestFileName(id, v) == "hellonuget.nuspec"
  {
    HelloNugetLowered();
  }

  /** The download marker name of the same sample. */
  lemma HelloNugetMarker(root: Path, id: string)
    requires id == "HelloNuget"
    ensures New(root).GetPackageDownloadMarkerFileName(id) == "hellonuget.packagedownload.marker"
  {
    HelloNugetLowered();
    var n := New(root).Normalize(id);
    assert n == "hellonuget";
    assert New(root).GetPackageDownloadMarkerFileName(id) == n + ".packagedownload.marker";
  }

  /** The hash file name and path of the same sample. */
  lemma HelloNugetHashPath(root: Path, id: string, v: string)
    requires id == "HelloNuget" && v == "1.0.2"
    ensures New(root).GetHashFileName(id, v) == "hellonuget.1.0.2.nupkg.sha512"
    ensures New(root).GetHashPath(id, v) == root + ["hellonuget", "1.0.2", "hellonuget.1.0.2.nupkg.sha512"]
  {
    HelloNugetLowered();
    var r := New(root);
    var packageFile := r.GetPackageFileName(id, v);
    assert packageFile == "hellonuget.1.0.2.nupkg";
    assert packageFile + ".sha512" == "hellonuget.1.0.2.nupkg.sha512";
    assert r.GetInstallPath(id, v) == root + ["hellonuget", "1.0.2"];
  }

  /** Without lower-casing, the sample keeps its capitals. */
  lemma HelloNugetCaseSensitive(root: Path, id: string, v: string)
    requires id == "HelloNuget" && v == "1.0.2"
    ensures VersionFolderPathResolver(root, false).GetHashFileName(id, v) == "HelloNuget.1.0.2.nupkg.sha512"
    ensures VersionFolderPathResolver(root, false).GetInstallPath(id, v) == root + ["HelloNuget", "1.0.2"]
  {
  }

  lemma HelloNugetLowered()
    ensures ToLower("HelloNuget") == "hellonuget"
    ensures ToLower("1.0.2") == "1.0.2"
  {
    var s := "HelloNuget";
    assert LowerChar(s[0]) == 'h' && LowerChar(s[5]) == 'n';
    assert forall i :: 0 <= i < |s| ==> ToLower(s)[i] == "hellonuget"[i];
    ToLowerOfAllLower("1.0.2");
  }
}
