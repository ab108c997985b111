# NugetHashProvider in Dafny

A model of the two pieces of logic in NugetHashProvider that have real
invariants, and of the constants they share:

- **VersionFolderPathResolver**: the layout of a local package folder. From
  a root directory and a lower-casing policy it derives, for a package id and
  version, the version-list directory `<id>`, the install directory
  `<root>/<id>/<version>`, and the names `<id>.<version>.nupkg`, `<id>.nuspec`,
  `<id>.<version>.nupkg.sha512` and `<id>.packagedownload.marker`, all with id
  and version lower-cased when the policy says so.
- **CryptoHashProvider**: a hash provider that accepts only SHA512 or SHA256
  (any casing, kept as written, SHA512 when no name is given), computes a
  digest over a byte array or the rest of a stream, and verifies a digest by
  recomputing it.
- **PackagingCoreConstants**: the extensions `.nupkg`, `.nuspec`,
  `.nupkg.sha512`, `.packagedownload.marker` and the empty-folder marker `_._`.

Files:

- `ascii.dfy` (module `Ascii`): ASCII versions of `ToLowerInvariant`,
  `ToUpperInvariant` and ordinal ignore-case equality, with the facts the
  layout needs. Lower-casing is idempotent. Lower-casing makes two strings
  equal exactly when they are equal ignoring case.
- `packaging_core_constants.dfy` (module `PackagingCoreConstants`).
- `version_folder_path_resolver.dfy` (module `PathResolver`): the resolver is
  an immutable value `VersionFolderPathResolver(RootPath, IsLowerCase)` whose
  members are the layout functions. Paths are lists of segments.
  `Path.Combine` is list concatenation, and an empty string adds no segment
  (.NET's `Path.Combine` returns the other argument when one is empty).
- `crypto_hash_provider.dfy` (module `HashProvider`): the provider is a class
  with one `const` field, the algorithm name. The throwing constructor is the
  static method `Create`, which returns a `Result`. Its branch is the pure
  function `SelectAlgorithm`. A null name is `None`. Every constructor
  establishes `Valid()`, which says the stored name is on the allow-list.
  Hashing and verifying require it, so only a vetted name ever reaches the
  hash primitive.
- `wrappers.dfy` (module `Wrappers`): `Option` and `Result`.

The layout accepts an empty id or version and does not reject it. Because
`Path.Combine` drops an empty argument, the install directory of `("", v)`
is the version-list directory of `v` (`PathResolver.EmptyIdInstallPath`).
Nesting "directly under" therefore holds for non-empty ids and versions,
and the contracts say so.

## Model

| member | source | states |
|---|---|---|
| `Ascii.ToLower` | NugetHashProvider/VersionFolderPathResolver.cs:189 | lower-casing keeps the length and maps each character on its own, 'A'..'Z' to 'a'..'z', leaving every other character |
| `Ascii.ToLowerIdempotent` | NugetHashProvider/VersionFolderPathResolver.cs:185-193 | lower-casing a lower-cased string changes nothing |
| `Ascii.ToLowerOfToUpper` | NugetHashProvider/VersionFolderPathResolver.cs:185-193 | upper-casing first does not change the lower-cased result |
| `Ascii.ToLowerEqualIffEqualsIgnoreCase` | NugetHashProvider/VersionFolderPathResolver.cs:185-193 | two strings lower-case to the same string exactly when they are equal under ordinal ignore-case comparison |
| `Ascii.EqualsIgnoreCase` | NugetHashProvider/CryptoHashProvider.cs:39-41 | ordinal ignore-case equality holds exactly when the strings have equal length and equal upper-cased characters position by position |
| `PathResolver.Segment` | NugetHashProvider/VersionFolderPathResolver.cs:136-138 | a string adds no segment to a combined path when it is empty and exactly itself otherwise, as `Path.Combine` returns the other argument when one is empty |
| `PathResolver.Combine` | NugetHashProvider/VersionFolderPathResolver.cs:50-52 | joining two paths keeps the first as the prefix and the second as the rest, with lengths adding up |
| `PathResolver.New` | NugetHashProvider/VersionFolderPathResolver.cs:26-28 | the one-argument constructor keeps the root and turns lower-casing on |
| `PathResolver.VersionFolderPathResolver.Normalize` | NugetHashProvider/VersionFolderPathResolver.cs:185-193 | the normalized id has the id's length and equals it ignoring case; it has no upper-case letter when IsLowerCase and is the id itself otherwise |
| `PathResolver.VersionFolderPathResolver.NormalizeVersion` | NugetHashProvider/VersionFolderPathResolver.cs:173-183 | versions are folded exactly as ids are |
| `PathResolver.VersionFolderPathResolver.NormalizeIdempotent` | NugetHashProvider/VersionFolderPathResolver.cs:173-193 | normalizing twice equals normalizing once, for ids and for versions |
| `PathResolver.VersionFolderPathResolver.GetVersionListDirectory` | NugetHashProvider/VersionFolderPathResolver.cs:123-126 | the version-list directory is the id up to case; it is lower-case under the lower-case policy and the id itself otherwise |
| `PathResolver.VersionFolderPathResolver.GetPackageDirectory` | NugetHashProvider/VersionFolderPathResolver.cs:134-139 | for a non-empty id and version, the package directory is the two segments normalized id, normalized version |
| `PathResolver.VersionFolderPathResolver.GetVersionListPath` | NugetHashProvider/VersionFolderPathResolver.cs:60-65 | the version-list path is the root plus one segment, the normalized id; it is the root itself for an empty id |
| `PathResolver.VersionFolderPathResolver.GetInstallPath` | NugetHashProvider/VersionFolderPathResolver.cs:48-53 | the install path is the version-list path followed by the normalized version; for a non-empty id and version it lies directly inside the version-list path, which lies directly inside the root |
| `PathResolver.VersionFolderPathResolver.GetPackageFileName` | NugetHashProvider/VersionFolderPathResolver.cs:147-150 | the package file name is the normalized id, a dot, the normalized version and ".nupkg", read off by position |
| `PathResolver.VersionFolderPathResolver.GetHashFileName` | NugetHashProvider/VersionFolderPathResolver.cs:113-116 | the hash file name is the package file name followed by ".sha512" and ends with the hash-file extension |
| `PathResolver.VersionFolderPathResolver.GetManifestFileName` | NugetHashProvider/VersionFolderPathResolver.cs:168-171 | the manifest file name is the normalized id followed by ".nuspec" |
| `PathResolver.VersionFolderPathResolver.GetPackageDownloadMarkerFileName` | NugetHashProvider/VersionFolderPathResolver.cs:157-160 | the marker name is the normalized id followed by ".packagedownload.marker" |
| `PathResolver.VersionFolderPathResolver.GetPackageFilePath` | NugetHashProvider/VersionFolderPathResolver.cs:73-78 | the package file lies directly inside the install path and its last segment is the package file name |
| `PathResolver.VersionFolderPathResolver.GetManifestFilePath` | NugetHashProvider/VersionFolderPathResolver.cs:86-92 | despite normalizing the id again, the manifest file lies directly inside the install path of the original id and its last segment is the manifest file name |
| `PathResolver.VersionFolderPathResolver.GetHashPath` | NugetHashProvider/VersionFolderPathResolver.cs:100-105 | the hash file lies directly inside the install path and its last segment is the hash file name |
| `PathResolver.ManifestFileNameIgnoresVersion` | NugetHashProvider/VersionFolderPathResolver.cs:168-171 | the manifest name is the same for every version |
| `PathResolver.LowerCaseLayoutIgnoresCase` | NugetHashProvider/VersionFolderPathResolver.cs:185-193 | under the lower-case policy, ids and versions equal ignoring case give the same version-list, install and file paths and the same file names |
| `PathResolver.LowerCaseLayoutIgnoresUpperCasing` | NugetHashProvider/VersionFolderPathResolver.cs:113-116 | under the lower-case policy, upper-casing id and version leaves all nine names and paths unchanged: the version-list and install directories, the package, hash, manifest and marker file names, and the package, hash and manifest file paths |
| `PathResolver.InstallPathIdentifiesPackage` | NugetHashProvider/VersionFolderPathResolver.cs:48-53 | for non-empty ids and versions without a directory separator, two install paths are equal exactly when the ids and the versions are equal ignoring case under the lower-case policy, or exactly equal otherwise |
| `PathResolver.EmptyIdInstallPath` | NugetHashProvider/VersionFolderPathResolver.cs:60-65 | an empty id adds no segment: its version-list path is the root, and the install path of ("", v) is the version-list path of v |
| `PathResolver.HashFileNameEndsWithSha512` | NugetHashProvider/VersionFolderPathResolver.cs:115 | every hash file name ends with ".nupkg.sha512", with no dependence on a hash algorithm |
| `PathResolver.HelloNugetNames` | NugetHashProvider/Program.cs:15-18 | for "HelloNuget" 1.0.2 with the default policy, the package file is "hellonuget.1.0.2.nupkg" and the manifest "hellonuget.nuspec" |
| `PathResolver.HelloNugetMarker` | NugetHashProvider/VersionFolderPathResolver.cs:157-160 | the marker for "HelloNuget" is "hellonuget.packagedownload.marker" |
| `PathResolver.HelloNugetHashPath` | NugetHashProvider/Program.cs:32 | the hash file of "HelloNuget" 1.0.2 is "hellonuget.1.0.2.nupkg.sha512" at root/hellonuget/1.0.2 |
| `PathResolver.HelloNugetCaseSensitive` | NugetHashProvider/VersionFolderPathResolver.cs:36-40 | with lower-casing off, the same sample keeps its capitals in names and paths |
| `PackagingCoreConstants.HashFileExtensionExtendsNupkg` | NugetHashProvider/PackagingCoreConstants.cs:11-12 | the hash-file extension is the package extension followed by ".sha512" |
| `PackagingCoreConstants.ExtensionsStartWithDot` | NugetHashProvider/PackagingCoreConstants.cs:11-14 | every extension starts with a dot and is longer than the dot |
| `PackagingCoreConstants.ForwardSlashEmptyFolderValue` | NugetHashProvider/PackagingCoreConstants.cs:20-25 | the forward-slash empty-folder marker is "/_._", a slash before the empty-folder marker |
| `HashProvider.VettedNameSpelling` | NugetHashProvider/CryptoHashProvider.cs:39-41 | a name is on the allow-list exactly when it is "sha" in any casing followed by "512" or "256" |
| `HashProvider.IsVetted` | NugetHashProvider/CryptoHashProvider.cs:39-41 | a name passes the allow-list exactly when its upper-cased form is "SHA512" or "SHA256" |
| `HashProvider.SelectAlgorithm` | NugetHashProvider/CryptoHashProvider.cs:33-48 | construction succeeds exactly for a null, empty or vetted name; null or empty gives "SHA512", a vetted name is kept as written, any other name gives the unsupported-algorithm error carrying that name; a kept name is always vetted |
| `HashProvider.SelectAlgorithmAccepts` | NugetHashProvider/CryptoHashProvider.cs:39-47 | "sha256" and "Sha512" are accepted and kept as written |
| `HashProvider.SelectAlgorithmRefuses` | NugetHashProvider/CryptoHashProvider.cs:39-45 | "MD5" and "SHA384" are refused with the error carrying the name |
| `HashProvider.Stream.ReadToEnd` | NugetHashProvider/CryptoHashProvider.cs:57 | reading to the end returns exactly what remained from the position and leaves nothing to read; the content is unchanged |
| `HashProvider.SequenceEqual` | NugetHashProvider/CryptoHashProvider.cs:78 | the element-by-element comparison is true exactly when the two sequences are equal |
| `HashProvider.CryptoHashProvider.Default` | NugetHashProvider/CryptoHashProvider.cs:25-28 | the parameterless constructor is the null case of the named one, stores "SHA512" and so holds a vetted name |
| `HashProvider.CryptoHashProvider.Vetted` | NugetHashProvider/CryptoHashProvider.cs:47 | a name that passed the allow-list is stored exactly as given, and the provider holds a vetted name |
| `HashProvider.CryptoHashProvider.Create` | NugetHashProvider/CryptoHashProvider.cs:33-48 | construction yields a new provider holding the selected, vetted name when the name is accepted, and the argument error otherwise |
| `HashProvider.CryptoHashProvider.CalculateStreamHash` | NugetHashProvider/CryptoHashProvider.cs:53-59 | called only on a provider holding a vetted name; the stream digest is the byte-array digest of what remained from the stream's position, and the stream is left at its end |
| `HashProvider.CryptoHashProvider.VerifyHash` | NugetHashProvider/CryptoHashProvider.cs:75-79 | called only on a provider holding a vetted name; verification is true exactly when the given hash has the recomputed digest's length and bytes, position by position |
| `HashProvider.VerifyCalculatedHash` | NugetHashProvider/CryptoHashProvider.cs:64-79 | a computed digest verifies against its own data, the empty data included, and verification accepts no other byte sequence |
| `HashProvider.CalculateHashDependsOnNameOnly` | NugetHashProvider/CryptoHashProvider.cs:20 | providers holding the same name compute the same digest for every input |
| `HashProvider.StreamAndArrayAgree` | NugetHashProvider/CryptoHashProvider.cs:53-70 | hashing a stream from a position and hashing the remaining bytes as an array give the same digest, and it verifies |

## Left out

- The hash primitive (`CryptoHashUtility.GetHashAlgorithm` and the SHA-256/SHA-512 computation) is not part of this model. Operations take it as a deterministic function parameter. Digest lengths and tamper detection belong to the primitive, so nothing is proved about them.
- Whether "sha256" and "SHA256" produce the same digest. The name is stored exactly as written (CryptoHashProvider.cs:47), so they agree only if `CryptoHashUtility.GetHashAlgorithm` ignores case. That function is not part of this model.
- Null arguments and the exceptions they raise are not modelled. Ids, versions, the root path, data and expected hashes are always values. In the source:
  - Under lower-casing, `Normalize` and `NormalizeVersion` throw on a null id or version.
  - With lower-casing off, `GetHashFileName`, `GetPackageFileName`, `GetManifestFileName` and `GetPackageDownloadMarkerFileName` render a null id or version as "".
  - `GetVersionListPath`, `GetPackageDirectory` and `GetInstallPath`, and the paths built on them, throw from `Path.Combine` on a null id, version or root path.
  - `CalculateHash` throws on null data, and `VerifyHash` throws on null data or a null hash.
  Only the null algorithm name, `None`, is modelled.
- Dafny's `string` is a sequence of Unicode scalar values, whereas .NET strings are UTF-16 code units. For characters outside the Basic Multilingual Plane, the length clauses in the file-name contracts count one character where .NET counts two.
- Disposal of the hash primitive after each call, and the text of the unsupported-algorithm message. Failed construction is the error value `UnsupportedHashAlgorithm(name)`.
- `Path.Combine` details: the separator character, and a rooted second argument replacing the first. Ids and versions are treated as single, non-rooted segments. A separator inside an id is not split into more segments.
- `PathResolver.InstallPathIdentifiesPackage` requires ids and versions without a directory separator. The "equal install paths imply equal packages" direction fails in the source when one holds a separator: ("a/b", "c") and ("a", "b/c") both give `a/b/c`.
- Case mapping is ASCII only. `ToLowerInvariant` and `OrdinalIgnoreCase` on letters outside ASCII are not modelled.
- Subclasses overriding the virtual layout methods. Only the default layout is modelled.
- `HashProvider.Stream`: a stream is fixed content plus a position. Only reading to the end is modelled, so seeking, writing and asynchronous reads are left out.
- The sample driver in Program.cs: file creation, the assembly location, random file names, base64 encoding and writing the hash file. I/O is out of scope. Its id and version are used as the concrete sample.
- `HashAlgorithmName`: an enumeration that no modelled code refers to.
