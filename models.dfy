/**
 * The records of the documentation browser: configuration, documents, the
 * per-source groups, and the metadata-only cache snapshot.  The tree nodes,
 * which the source links by pointers and updates in place, are the datatype
 * `TreeNode` in module `Tree`, held by index in the class `DirectoryTree`.
 */
module Models {

  /** One configured source directory: scan root, display name, file-name pattern. */
  datatype DirectoryConfig = DirectoryConfig(path: string, name: string, filePattern: string)

  datatype Config = Config(
    directories: seq<DirectoryConfig>,
    port: string,
    title: string,
    ignorePatterns: seq<string>)

  /** A scanned markdown file.  An empty `content` means "not loaded yet". */
  datatype Document = Document(
    title: string,
    path: string,
    content: string,
    relPath: string,
    dirName: string,
    sourceDir: string,
    sourceName: string,
    absPath: string,
    overview: string)

  /** The documents that share one source name. */
  datatype DirectoryGroup = DirectoryGroup(name: string, documents: seq<Document>)

  /** A Document as the cache file stores it: every field except the content. */
  datatype CachedDocument = CachedDocument(
    title: string,
    path: string,
    relPath: string,
    dirName: string,
    sourceDir: string,
    sourceName: string,
    absPath: string,
    overview: string)

  /** The cache file's contents: the cached documents and the writer's version string. */
  datatype CacheData = CacheData(documents: seq<CachedDocument>, version: string)

  /** A compiled regular expression, known by the pattern it was compiled from. */
  datatype Regex = Regex(pattern: string)
}
