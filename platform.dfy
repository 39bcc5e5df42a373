/**
 * What the pipeline asks of the operating system and of libraries whose
 * code is not part of this model, given as values: the directory tree a walk
 * finds, what reading a file returns, whether a pattern compiles and what it
 * matches, and how paths resolve.  Every call of the source into these is a
 * look-up in an `Env`, so reading the same path twice gives the same answer.
 */
module Platform {
  import opened Wrappers
  import opened Models

  /**
   * An entry that filepath.Walk reaches.  `Dir` lists its children in the
   * order the walk visits them (Go sorts them by name).  `Unlistable` is a
   * directory whose listing fails; `Unstatable` an entry whose lstat fails.
   * For the walk's root, `name` is the base name of the root path.
   */
  datatype Entry =
    | File(name: string)
    | Dir(name: string, children: seq<Entry>)
    | Unlistable(name: string)
    | Unstatable(name: string)

  /** Reading and decoding a configuration file. */
  datatype ConfigRead =
    | NotExist                 // the file does not exist
    | ReadError                // any other read failure
    | Malformed                // read, but the JSON does not decode into a Config
    | Parsed(config: Config)   // the decoded configuration

  /** What os.Stat says about a path. */
  datatype StatResult = StatMissing | StatDir | StatFile

  /** The cache file `.dimandocs-cache.json` as a later read would see it. */
  datatype CacheFile =
    | CacheMissing             // reading fails
    | CacheMalformed           // the JSON does not decode
    | CacheStored(data: CacheData)

  datatype Env = Env(
    getwd: Option<string>,                  // os.Getwd
    readConfig: string -> ConfigRead,       // ioutil.ReadFile + json.Unmarshal of a config file
    abs: string -> Option<string>,          // filepath.Abs
    stat: string -> StatResult,             // os.Stat
    dir: string -> string,                  // filepath.Dir
    join: (string, string) -> string,       // filepath.Join(dir, name), which cleans the result
    compiles: string -> bool,               // regexp.Compile succeeds on the pattern
    matches: (string, string) -> bool,      // regexp MatchString: (pattern, text)
    tree: string -> Entry,                  // what filepath.Walk finds at a root path
    readFile: string -> Option<string>,     // ioutil.ReadFile of a document
    relDir: (string, string) -> string,     // (working dir, path) -> Rel(working dir, Dir(Abs(path)))
    rel: (string, string) -> Option<string>,// filepath.Rel(base, target)
    cacheFile: CacheFile,                   // the cache file before the run
    cacheWritable: bool)                    // ioutil.WriteFile of the cache file succeeds
}
