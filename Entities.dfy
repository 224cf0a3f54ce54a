/** The one entity the core passes around: an item of a GitHub "contents"
    listing. JSON deserialisation is not modelled; every field may be null. */
module Entities {
  import opened Text

  datatype GitHubFile = GitHubFile(
    name: NullableString,        // "index.js", "lib", ...
    downloadUrl: NullableString, // where the raw file content can be fetched
    fileType: NullableString,    // "file", "dir", or anything else the service sends
    path: NullableString)        // the item's path relative to the repository root
}
