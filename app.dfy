/**
 * The application object and the steps that fill and use its fields:
 * LoadConfig (with handleTargetPath and the two compile loops), the scan
 * (scanDirectory's walk, shouldIgnorePath, processFile), the cache,
 * Initialize's cache-or-scan sequence, the lazy content loader, and the
 * two request handlers that read and update the document list.  Each
 * method is proved against the functions of the modules it uses.
 */
module Application {
  import opened Wrappers
  import opened GoStrings
  import opened Models
  import opened Platform
  import opened Metadata
  import opened Scan
  import opened Configuration
  import Cache
  import Search

  /** Why the document page cannot be served. */
  datatype PageError =
    | PageNotFound                     // no document has the requested RelPath (404)
    | UnreadableDocument(path: string) // its content was not loaded and reading it failed (500)

  /** Appending is associative (a step the loops over the walk need). */
  lemma ConcatAssoc<T>(a: seq<T>, b: seq<T>, c: seq<T>)
    ensures (a + b) + c == a + (b + c)
  {
  }

  /**
   * The file-pattern loop of LoadConfig: each directory's effective pattern
   * compiled into a fresh map under the directory's path, stopping at the
   * first pattern that does not compile.
   */
  method CompileFileRegexes(compiles: string -> bool, dirs: seq<DirectoryConfig>)
    returns (regexes: map<string, Regex>, err: Option<Error>)
    ensures var fs := EffectivePatterns(dirs);
            var m := FirstUncompilable(compiles, fs);
            && regexes == FileRegexMap(dirs[..m])
            && err == (if m < |dirs| then Some(BadFilePattern(fs[m], dirs[m].path)) else None)
  {
    regexes := map[];
    ghost var fs := EffectivePatterns(dirs);
    for i := 0 to |dirs|
      invariant i <= FirstUncompilable(compiles, fs)
      invariant regexes == FileRegexMap(dirs[..i])
    {
      var pattern := dirs[i].filePattern;
      if pattern == "" {
        pattern := ReadmePattern;
      }
      assert pattern == fs[i];
      if !compiles(pattern) {
        FirstUncompilableIsFirst(compiles, fs, i);
        return regexes, Some(BadFilePattern(pattern, dirs[i].path));
      }
      FileRegexMapStep(dirs, i);
      regexes := regexes[dirs[i].path := Regex(pattern)];
    }
    return regexes, None;
  }

  class App {
    var config: Config
    var documents: seq<Document>
    var ignoreRegexes: seq<Regex>
    var fileRegexes: map<string, Regex>
    var workingDir: string
    var targetFile: string

    /** NewApp: everything empty, the file-pattern map included. */
    constructor ()
      ensures config == Config([], "", "", [])
      ensures documents == [] && ignoreRegexes == [] && fileRegexes == map[]
      ensures workingDir == "" && targetFile == ""
    {
      config := Config([], "", "", []);
      documents := [];
      ignoreRegexes := [];
      fileRegexes := map[];
      workingDir := "";
      targetFile := "";
    }

    /** The walk context of a source scanned with this application's working directory and ignore list. */
    function Context(env: Env, fileRegex: Regex, rootDir: string, sourceName: string): ScanContext
      reads this
    {
      ScanContext(env, workingDir, ignoreRegexes, fileRegex, rootDir, sourceName)
    }

    /** Every field but the document list is as it was. */
    twostate predicate OnlyDocumentsChanged()
      reads this
    {
      && config == old(config)
      && ignoreRegexes == old(ignoreRegexes)
      && fileRegexes == old(fileRegexes)
      && workingDir == old(workingDir)
      && targetFile == old(targetFile)
    }

    // -------------------------------------------------------------------
    // LoadConfig
    // -------------------------------------------------------------------

    /**
     * What the two compile loops leave, starting from the ignore list
     * `ignore0` and the map `fileRegexes0`: the ignore patterns compiled in
     * order up to the first that fails, appended; then, if they all
     * compile, a fresh map from the directories up to the first file
     * pattern that fails; and the error naming the pattern that failed.
     */
    ghost predicate PatternsCompiled(env: Env, ignore0: seq<Regex>, fileRegexes0: map<string, Regex>, err: Option<Error>)
      reads this
    {
      var ps := config.ignorePatterns;
      var k := FirstUncompilable(env.compiles, ps);
      var dirs := config.directories;
      var fs := EffectivePatterns(dirs);
      var m := FirstUncompilable(env.compiles, fs);
      && ignoreRegexes == ignore0 + Compiled(ps[..k])
      && (k < |ps| ==> err == Some(BadIgnorePattern(ps[k])) && fileRegexes == fileRegexes0)
      && (k == |ps| ==>
            && fileRegexes == FileRegexMap(dirs[..m])
            && err == (if m < |dirs| then Some(BadFilePattern(fs[m], dirs[m].path)) else None))
    }

    /**
     * LoadConfig: read the file (or fall back to the default), apply the
     * target path, then compile the ignore patterns and the file patterns,
     * stopping at the first failure.
     */
    method LoadConfig(env: Env, configFile: string, targetPath: string) returns (err: Option<Error>)
      modifies this
      ensures documents == old(documents) && workingDir == old(workingDir)
      ensures err == LoadError(env, configFile, targetPath, old(targetFile))
      ensures ReadConfig(env, configFile).Failure? ==> config == old(config) && targetFile == old(targetFile)
      ensures ReadConfig(env, configFile).Success? && ResolveConfig(env, configFile, targetPath, old(targetFile)).Failure? ==>
                config == ReadConfig(env, configFile).value && targetFile == old(targetFile)
      ensures ResolveConfig(env, configFile, targetPath, old(targetFile)).Failure? ==>
                ignoreRegexes == old(ignoreRegexes) && fileRegexes == old(fileRegexes)
      ensures ResolveConfig(env, configFile, targetPath, old(targetFile)).Success? ==>
                && (config, targetFile) == ResolveConfig(env, configFile, targetPath, old(targetFile)).value
                && PatternsCompiled(env, old(ignoreRegexes), old(fileRegexes), err)
    {
      err := ReadConfigFile(env, configFile);
      if err.Some? {
        return;
      }
      if targetPath != "" {
        err := HandleTargetPath(env, targetPath);
        if err.Some? {
          return;
        }
      }
      err := CompileIgnorePatterns(env);
      if err.Some? {
        return;
      }
      err := CompileFilePatterns(env);
    }

    /** The read of the configuration file: the decoded file, or the default for a missing dimandocs.json. */
    method ReadConfigFile(env: Env, configFile: string) returns (err: Option<Error>)
      modifies this
      ensures documents == old(documents) && workingDir == old(workingDir) && targetFile == old(targetFile)
      ensures ignoreRegexes == old(ignoreRegexes) && fileRegexes == old(fileRegexes)
      ensures var r := ReadConfig(env, configFile);
              && (r.Success? ==> err.None? && config == r.value)
              && (r.Failure? ==> err == Some(r.error) && config == old(config))
    {
      var name := if configFile == "" then DefaultConfigFile else configFile;
      match env.readConfig(name) {
        case Parsed(c) =>
          config := c;
        case NotExist =>
          if name == DefaultConfigFile {
            config := DefaultConfig();
          } else {
            return Some(ReadFailed(name));
          }
        case ReadError =>
          return Some(ReadFailed(name));
        case Malformed =>
          return Some(ParseFailed(name));
      }
      return None;
    }

    /** handleTargetPath: the override of the directories (and, for a file, the target file). */
    method HandleTargetPath(env: Env, targetPath: string) returns (err: Option<Error>)
      modifies this
      ensures documents == old(documents) && workingDir == old(workingDir)
      ensures ignoreRegexes == old(ignoreRegexes) && fileRegexes == old(fileRegexes)
      ensures var r := TargetOverride(env, old(config), old(targetFile), targetPath);
              && (r.Success? ==> err.None? && (config, targetFile) == r.value)
              && (r.Failure? ==> err == Some(r.error) && config == old(config) && targetFile == old(targetFile))
    {
      var absPath := env.abs(targetPath);
      if absPath.None? {
        return Some(ResolveFailed(targetPath));
      }
      match env.stat(absPath.value) {
        case StatMissing =>
          return Some(PathMissing(targetPath));
        case StatDir =>
          config := config.(directories := [DirectoryConfig(absPath.value, DocumentsName, MarkdownPattern)]);
        case StatFile =>
          targetFile := absPath.value;
          var dirPath := env.dir(absPath.value);
          config := config.(directories := [DirectoryConfig(dirPath, DocumentsName, MarkdownPattern)]);
      }
      return None;
    }

    /** The ignore-pattern loop: compiled in order and appended; the first that fails is the error. */
    method CompileIgnorePatterns(env: Env) returns (err: Option<Error>)
      modifies this
      ensures config == old(config) && documents == old(documents) && workingDir == old(workingDir)
      ensures targetFile == old(targetFile) && fileRegexes == old(fileRegexes)
      ensures var ps := config.ignorePatterns;
              var k := FirstUncompilable(env.compiles, ps);
              && ignoreRegexes == old(ignoreRegexes) + Compiled(ps[..k])
              && err == (if k < |ps| then Some(BadIgnorePattern(ps[k])) else None)
    {
      var patterns := config.ignorePatterns;
      for i := 0 to |patterns|
        invariant config == old(config) && documents == old(documents) && workingDir == old(workingDir)
        invariant targetFile == old(targetFile) && fileRegexes == old(fileRegexes)
        invariant i <= FirstUncompilable(env.compiles, patterns)
        invariant ignoreRegexes == old(ignoreRegexes) + Compiled(patterns[..i])
      {
        if !env.compiles(patterns[i]) {
          FirstUncompilableIsFirst(env.compiles, patterns, i);
          return Some(BadIgnorePattern(patterns[i]));
        }
        assert Compiled(patterns[..i + 1]) == Compiled(patterns[..i]) + [Regex(patterns[i])];
        ignoreRegexes := ignoreRegexes + [Regex(patterns[i])];
      }
      return None;
    }

    /** The file-pattern loop: a fresh map, one entry per directory path, the first failure the error. */
    method CompileFilePatterns(env: Env) returns (err: Option<Error>)
      modifies this
      ensures config == old(config) && documents == old(documents) && workingDir == old(workingDir)
      ensures targetFile == old(targetFile) && ignoreRegexes == old(ignoreRegexes)
      ensures var dirs := config.directories;
              var fs := EffectivePatterns(dirs);
              var m := FirstUncompilable(env.compiles, fs);
              && fileRegexes == FileRegexMap(dirs[..m])
              && err == (if m < |dirs| then Some(BadFilePattern(fs[m], dirs[m].path)) else None)
    {
      var dirs := config.directories;
      fileRegexes, err := CompileFileRegexes(env.compiles, dirs);
    }

    // -------------------------------------------------------------------
    // Scanning
    // -------------------------------------------------------------------

    /** shouldIgnorePath */
    method ShouldIgnorePath(env: Env, path: string) returns (ignore: bool)
      ensures ignore == IgnoredBy(ignoreRegexes, env.matches, path)
    {
      for i := 0 to |ignoreRegexes|
        invariant forall j :: 0 <= j < i ==> !env.matches(ignoreRegexes[j].pattern, path)
      {
        if env.matches(ignoreRegexes[i].pattern, path) {
          return true;
        }
      }
      return false;
    }

    /**
     * processFile: the document for the file at `path` is appended when the
     * file can be read; otherwise nothing changes and the failure is
     * returned.  (`fileRegex` only names the walk's context.)
     */
    method ProcessFile(env: Env, path: string, rootDir: string, sourceName: string, filename: string, ghost fileRegex: Regex)
      returns (ok: bool)
      modifies this
      ensures OnlyDocumentsChanged()
      ensures ok == env.readFile(path).Some?
      ensures documents == old(documents) + Processed(Context(env, fileRegex, rootDir, sourceName), path, filename)
    {
      var content := env.readFile(path);
      if content.None? {
        return false;
      }
      var relPath := env.rel(rootDir, path).GetOr("");
      var dirName := env.dir(relPath);
      if dirName == "." {
        dirName := "Root";
      }
      if dirName == "Root" {
        dirName := filename;
      } else {
        dirName := dirName + "/" + filename;
      }
      var relAbsDir := env.relDir(workingDir, path);
      if HasPrefix(relAbsDir, "../") {
        relAbsDir := "/" + TrimPrefix(relAbsDir, "../");
      }
      var title := ExtractTitle(content.value, dirName);
      var overview := ExtractOverviewParagraph(content.value);
      documents := documents + [Document(title, path, content.value, relPath, dirName, rootDir, sourceName, relAbsDir, overview)];
      return true;
    }

    /**
     * The walk callback on entry `e` at `path` and, for a directory that is
     * not ignored, the walk of its children in order.  It appends what the
     * walk yields and reports whether it ran to the end.
     */
    method WalkEntry(env: Env, fileRegex: Regex, rootDir: string, sourceName: string, path: string, e: Entry)
      returns (ok: bool)
      modifies this
      decreases e, 2
      ensures OnlyDocumentsChanged()
      ensures documents == old(documents) + Walk(Context(env, fileRegex, rootDir, sourceName), path, e).docs
      ensures ok == Walk(Context(env, fileRegex, rootDir, sourceName), path, e).ok
    {
      match e {
        case Unstatable(_) =>
          assert documents == old(documents) + [];
          return false;
        case Unlistable(_) =>
          assert documents == old(documents) + [];
          return false;
        case File(name) =>
          ok := VisitFile(env, fileRegex, rootDir, sourceName, path, name);
        case Dir(_, _) =>
          var ignore := ShouldIgnorePath(env, path);
          if ignore {
            assert documents == old(documents) + [];
            return true;
          }
          ok := WalkDirectory(env, fileRegex, rootDir, sourceName, path, e);
      }
    }

    /** The callback on a file: skipped when ignored, processed when its name matches the pattern. */
    method VisitFile(env: Env, fileRegex: Regex, rootDir: string, sourceName: string, path: string, name: string)
      returns (ok: bool)
      modifies this
      ensures OnlyDocumentsChanged()
      ensures var r := Walk(Context(env, fileRegex, rootDir, sourceName), path, File(name));
              documents == old(documents) + r.docs && ok == r.ok
    {
      var ignore := ShouldIgnorePath(env, path);
      if ignore {
        assert documents == old(documents) + [];
        return true;
      }
      if env.matches(fileRegex.pattern, name) {
        var _ := ProcessFile(env, path, rootDir, sourceName, name, fileRegex);
      } else {
        assert documents == old(documents) + [];
      }
      return true;
    }

    /** The walk of a directory's children in order, stopping at the first that fails. */
    method WalkDirectory(env: Env, fileRegex: Regex, rootDir: string, sourceName: string, path: string, e: Entry)
      returns (ok: bool)
      requires e.Dir?
      modifies this
      decreases e, 1
      ensures OnlyDocumentsChanged()
      ensures var r := WalkChildren(Context(env, fileRegex, rootDir, sourceName), path, e, 0);
              documents == old(documents) + r.docs && ok == r.ok
    {
      ghost var ctx := Context(env, fileRegex, rootDir, sourceName);
      ghost var all := WalkChildren(ctx, path, e, 0);
      for k := 0 to |e.children|
        invariant OnlyDocumentsChanged()
        invariant documents + WalkChildren(ctx, path, e, k).docs == old(documents) + all.docs
        invariant WalkChildren(ctx, path, e, k).ok == all.ok
      {
        var child := e.children[k];
        WalkChildrenStep(ctx, path, e, k);
        ghost var before := documents;
        var childOk := WalkEntry(env, fileRegex, rootDir, sourceName, ChildPath(env, path, child.name), child);
        ghost var r := Walk(ctx, ChildPath(ctx.env, path, child.name), child);
        if !childOk {
          return false;
        }
        ConcatAssoc(before, r.docs, WalkChildren(ctx, path, e, k + 1).docs);
      }
      assert documents + [] == documents;
      return true;
    }

    /** scanDirectory: the walk from the source's root directory. */
    method ScanDirectory(env: Env, rootDir: string, sourceName: string, fileRegex: Regex) returns (ok: bool)
      modifies this
      ensures OnlyDocumentsChanged()
      ensures var r := ScanResult(Context(env, fileRegex, rootDir, sourceName));
              documents == old(documents) + r.docs && ok == r.ok
    {
      ok := WalkEntry(env, fileRegex, rootDir, sourceName, rootDir, env.tree(rootDir));
    }

    /** ScanDirectories: every configured directory in order; the first walk that stops is the error. */
    method ScanDirectories(env: Env) returns (err: Option<Error>)
      requires forall k :: 0 <= k < |config.directories| ==> config.directories[k].path in fileRegexes
      modifies this
      ensures OnlyDocumentsChanged()
      ensures var out := ScanAll(env, workingDir, ignoreRegexes, fileRegexes, config.directories);
              && documents == old(documents) + out.docs
              && err == (if out.failed.Some? then Some(ScanFailed(out.failed.value)) else None)
    {
      var dirs := config.directories;
      ghost var wd, ignore, regexes := workingDir, ignoreRegexes, fileRegexes;
      ghost var all := ScanAll(env, wd, ignore, regexes, dirs);
      assert dirs[0..] == dirs;
      for i := 0 to |dirs|
        invariant OnlyDocumentsChanged()
        invariant var rest := ScanAll(env, wd, ignore, regexes, dirs[i..]);
                  documents + rest.docs == old(documents) + all.docs && rest.failed == all.failed
      {
        var dir := dirs[i];
        ScanAllStep(env, wd, ignore, regexes, dirs, i);
        ghost var before := documents;
        var ok := ScanDirectory(env, dir.path, dir.name, fileRegexes[dir.path]);
        ghost var r := ScanResult(DirContext(env, wd, ignore, regexes, dir));
        assert documents == before + r.docs;
        if !ok {
          return Some(ScanFailed(dir.path));
        }
        ConcatAssoc(before, r.docs, ScanAll(env, wd, ignore, regexes, dirs[i + 1..]).docs);
      }
      assert documents + [] == documents;
      return None;
    }

    // -------------------------------------------------------------------
    // Cache and Initialize
    // -------------------------------------------------------------------

    /** loadFromCache: a readable, well-formed cache file replaces the document list. */
    method LoadFromCache(env: Env) returns (loaded: bool)
      modifies this
      ensures OnlyDocumentsChanged()
      ensures loaded == env.cacheFile.CacheStored?
      ensures documents == if loaded then Cache.DocumentsOf(env.cacheFile.data) else old(documents)
    {
      match env.cacheFile {
        case CacheStored(data) =>
          documents := Cache.LoadFromCache(data);
          return true;
        case CacheMissing =>
          return false;
        case CacheMalformed =>
          return false;
      }
    }

    /** saveToCache: what is written, or None when the write fails. */
    method SaveToCache(env: Env, version: string) returns (written: Option<CacheData>)
      ensures written == if env.cacheWritable then Some(Cache.CacheOf(documents, version)) else None
    {
      var data := Cache.SaveToCache(documents, version);
      if env.cacheWritable {
        written := Some(data);
      } else {
        written := None;
      }
    }

    /** The state a successful LoadConfig leaves, from target file `targetFile0` and ignore list `ignore0`. */
    ghost predicate Configured(env: Env, configFile: string, targetPath: string, targetFile0: string, ignore0: seq<Regex>)
      reads this
    {
      && ResolveConfig(env, configFile, targetPath, targetFile0).Success?
      && (config, targetFile) == ResolveConfig(env, configFile, targetPath, targetFile0).value
      && ignoreRegexes == ignore0 + Compiled(config.ignorePatterns)
      && fileRegexes == FileRegexMap(config.directories)
    }

    /**
     * Initialize: the working directory, then the configuration; with the
     * cache enabled a stored cache is used and nothing is scanned;
     * otherwise every directory is scanned and, with the cache enabled,
     * the metadata is written (`written`; a failed write only warns).
     */
    method Initialize(env: Env, configFile: string, targetPath: string, useCache: bool, version: string)
      returns (err: Option<Error>, written: Option<CacheData>)
      modifies this
      ensures env.getwd.None? ==> err == Some(NoWorkingDirectory) && written.None? && unchanged(this)
      ensures env.getwd.Some? ==> workingDir == env.getwd.value
      ensures env.getwd.Some? && LoadError(env, configFile, targetPath, old(targetFile)).Some? ==>
                err == LoadError(env, configFile, targetPath, old(targetFile)) && written.None? && documents == old(documents)
      ensures env.getwd.Some? && LoadError(env, configFile, targetPath, old(targetFile)).None? ==>
                Configured(env, configFile, targetPath, old(targetFile), old(ignoreRegexes))
      ensures env.getwd.Some? && LoadError(env, configFile, targetPath, old(targetFile)).None? && useCache && env.cacheFile.CacheStored? ==>
                err.None? && written.None? && documents == Cache.DocumentsOf(env.cacheFile.data)
      ensures env.getwd.Some? && LoadError(env, configFile, targetPath, old(targetFile)).None? && !(useCache && env.cacheFile.CacheStored?) ==>
                && (forall k :: 0 <= k < |config.directories| ==> config.directories[k].path in fileRegexes)
                && var out := ScanAll(env, workingDir, ignoreRegexes, fileRegexes, config.directories);
                   && documents == old(documents) + out.docs
                   && err == (if out.failed.Some? then Some(ScanFailed(out.failed.value)) else None)
                   && written == (if err.None? && useCache && env.cacheWritable then Some(Cache.CacheOf(documents, version)) else None)
    {
      written := None;
      if env.getwd.None? {
        return Some(NoWorkingDirectory), None;
      }
      workingDir := env.getwd.value;
      err := LoadConfig(env, configFile, targetPath);
      if err.Some? {
        return;
      }
      ConfiguredAfterLoad(env, configFile, targetPath, old(targetFile), old(ignoreRegexes));
      err, written := LoadOrScan(env, useCache, version);
    }

    /**
     * The second half of Initialize, once the configuration is loaded: a
     * cache hit installs the cached documents; otherwise the directories
     * are scanned and, with the cache enabled, the result is saved.
     */
    method LoadOrScan(env: Env, useCache: bool, version: string) returns (err: Option<Error>, written: Option<CacheData>)
      requires fileRegexes == FileRegexMap(config.directories)
      modifies this
      ensures OnlyDocumentsChanged()
      ensures useCache && env.cacheFile.CacheStored? ==>
                err.None? && written.None? && documents == Cache.DocumentsOf(env.cacheFile.data)
      ensures !(useCache && env.cacheFile.CacheStored?) ==>
                && (forall k :: 0 <= k < |config.directories| ==> config.directories[k].path in fileRegexes)
                && var out := ScanAll(env, workingDir, ignoreRegexes, fileRegexes, config.directories);
                   && documents == old(documents) + out.docs
                   && err == (if out.failed.Some? then Some(ScanFailed(out.failed.value)) else None)
                   && written == (if err.None? && useCache && env.cacheWritable then Some(Cache.CacheOf(documents, version)) else None)
    {
      written := None;
      if useCache {
        var loaded := LoadFromCache(env);
        if loaded {
          return None, None;
        }
      }
      FileRegexMapKeys(config.directories);
      forall k | 0 <= k < |config.directories| ensures config.directories[k].path in fileRegexes {
        assert config.directories[k] in config.directories;
      }
      err := ScanDirectories(env);
      if err.Some? {
        return;
      }
      if useCache {
        written := SaveToCache(env, version);
      }
    }

    /** After a LoadConfig that returned no error, the state is `Configured`. */
    lemma ConfiguredAfterLoad(env: Env, configFile: string, targetPath: string, targetFile0: string, ignore0: seq<Regex>)
      requires LoadError(env, configFile, targetPath, targetFile0).None?
      requires ResolveConfig(env, configFile, targetPath, targetFile0).Success? ==>
                 && (config, targetFile) == ResolveConfig(env, configFile, targetPath, targetFile0).value
                 && PatternsCompiled(env, ignore0, fileRegexes, None)
      ensures Configured(env, configFile, targetPath, targetFile0, ignore0)
    {
      var ps := config.ignorePatterns;
      assert ps[..|ps|] == ps;
      var dirs := config.directories;
      assert dirs[..|dirs|] == dirs;
    }

    // -------------------------------------------------------------------
    // Lazy content loading and the request handlers
    // -------------------------------------------------------------------

    /** loadDocumentContents: read each document whose content is still "", in place. */
    method LoadDocumentContents(readFile: string -> Option<string>)
      modifies this
      ensures OnlyDocumentsChanged()
      ensures documents == Cache.LoadedAll(old(documents), readFile)
    {
      for i := 0 to |documents|
        invariant OnlyDocumentsChanged()
        invariant |documents| == |old(documents)|
        invariant forall j :: 0 <= j < i ==> documents[j] == Cache.Loaded(old(documents)[j], readFile)
        invariant forall j :: i <= j < |documents| ==> documents[j] == old(documents)[j]
      {
        if documents[i].content != "" {
          continue;
        }
        var content := readFile(documents[i].path);
        if content.None? {
          continue;
        }
        documents := documents[i := documents[i].(content := content.value)];
      }
    }

    /**
     * handleSearch: a blank query answers nothing and touches nothing; with
     * the cache in use the contents are loaded first; the results are the
     * matching documents in list order.
     */
    method HandleSearch(readFile: string -> Option<string>, raw: string, useCache: bool) returns (results: seq<Document>)
      modifies this
      ensures OnlyDocumentsChanged()
      ensures documents == if Search.NormalizeQuery(raw) != "" && useCache then Cache.LoadedAll(old(documents), readFile) else old(documents)
      ensures results == Search.SearchResults(documents, raw)
    {
      var query := ToLower(TrimSpace(raw));
      if query == "" {
        return [];
      }
      if useCache {
        LoadDocumentContents(readFile);
      }
      results := Search.FilterDocuments(documents, query);
    }

    /**
     * handleDocument up to rendering: the first document whose RelPath is
     * the requested path, its content loaded if it was not, and the text
     * that is rendered (the content without its front matter).
     */
    method HandleDocument(readFile: string -> Option<string>, urlPath: string) returns (page: Result<(Document, string), PageError>)
      modifies this
      ensures OnlyDocumentsChanged()
      ensures var i := Search.IndexOf(old(documents), Search.RequestedRelPath(urlPath));
              && (i == -1 ==> page == Failure(PageNotFound) && documents == old(documents))
              && (i >= 0 && old(documents)[i].content == "" && readFile(old(documents)[i].path).None? ==>
                    page == Failure(UnreadableDocument(old(documents)[i].path)) && documents == old(documents))
              && (i >= 0 && (old(documents)[i].content != "" || readFile(old(documents)[i].path).Some?) ==>
                    && documents == old(documents)[i := Cache.Loaded(old(documents)[i], readFile)]
                    && page == Success((documents[i], Stripped(documents[i].content))))
    {
      var path := Search.RequestedRelPath(urlPath);
      var index := Search.FindDocument(documents, path);
      if index == -1 {
        return Failure(PageNotFound);
      }
      if documents[index].content == "" {
        var content := readFile(documents[index].path);
        if content.None? {
          return Failure(UnreadableDocument(documents[index].path));
        }
        documents := documents[index := documents[index].(content := content.value)];
      }
      var text := StripFrontmatter(documents[index].content);
      return Success((documents[index], text));
    }
  }
}
