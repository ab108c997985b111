/** The literal file extensions and the empty-folder marker shared by the
    package layout. */
module PackagingCoreConstants {

  const HashFileExtension: string := ".nupkg.sha512"
  const NupkgExtension: string := ".nupkg"
  const NuspecExtension: string := ".nuspec"
  const PackageDownloadMarkerFileExtension: string := ".packagedownload.marker"

  /** Stands for an empty folder, since an OPC archive cannot hold one. */
  const EmptyFolder: string := "_._"

  /** The empty-folder marker as seen by package readers that normalize to `/`. */
  const ForwardSlashEmptyFolder: string := "/" + EmptyFolder

  /** The hash-file extension is the package-file extension followed by
      ".sha512"; nothing in it depends on a hash algorithm. */
  lemma HashFileExtensionExtendsNupkg()
    ensures HashFileExtension == NupkgExtension + ".sha512"
    ensures HashFileExtension[..|NupkgExtension|] == NupkgExtension
  {
  }

  /** Every extension starts with a dot and has something after it. */
  lemma ExtensionsStartWithDot()
    ensures forall e :: e in [HashFileExtension, NupkgExtension, NuspecExtension, PackageDownloadMarkerFileExtension]
              ==> |e| > 1 && e[0] == '.'
  {
  }

  /** The forward-slash marker is "/_._". */
  lemma ForwardSlashEmptyFolderValue()
    ensures ForwardSlashEmptyFolder == "/_._"
    ensures ForwardSlashEmptyFolder[1..] == EmptyFolder
  {
  }
}
