/**
 * Configuration resolution: which file is read, when the built-in default
 * applies, how a path given on the command line overrides the directories,
 * and which patterns are compiled, in which order, into which regexes.
 * The steps that update the application's fields are methods of `App`;
 * this module gives the values they are proved against.
 */
module Configuration {
  import opened Wrappers
  import opened Models
  import opened Platform

  const DefaultConfigFile := "dimandocs.json"
  /** The file pattern of a directory that gives none: README.md in any letter case. */
  const ReadmePattern := "^(?i)(readme\\.md)$"
  /** The file pattern of the default configuration and of a command-line target. */
  const MarkdownPattern := "\\.md$"
  const DocumentsName := "Documents"

  /** Why initialisation stopped, with the name or path each message of the source names. */
  datatype Error =
    | NoWorkingDirectory                      // os.Getwd failed
    | ReadFailed(file: string)                // the configuration file could not be read
    | ParseFailed(file: string)               // the configuration file is not a Config in JSON
    | ResolveFailed(target: string)           // filepath.Abs failed on the target path
    | PathMissing(target: string)             // os.Stat failed on the target path
    | BadIgnorePattern(pattern: string)       // an ignore pattern does not compile
    | BadFilePattern(pattern: string, dir: string) // a directory's file pattern does not compile
    | ScanFailed(dir: string)                 // the walk of a source directory stopped

  /** getDefaultConfig */
  function DefaultConfig(): Config {
    Config(
      [DirectoryConfig("./", DocumentsName, MarkdownPattern)],
      "8090",
      "Documentation Browser",
      [".*/node_modules/.*", ".*/\\.git/.*", ".*/vendor/.*", ".*/build/.*", ".*/dist/.*"])
  }

  /** The default configuration browses the working directory for markdown files and ignores five folders. */
  lemma DefaultConfigContents()
    ensures |DefaultConfig().directories| == 1
    ensures DefaultConfig().directories[0] == DirectoryConfig("./", "Documents", "\\.md$")
    ensures DefaultConfig().port == "8090" && DefaultConfig().title == "Documentation Browser"
    ensures |DefaultConfig().ignorePatterns| == 5
  {
  }

  /** The configuration file read: the one given, or dimandocs.json when none is given. */
  function ConfigFileName(configFile: string): (name: string)
    ensures configFile == "" ==> name == DefaultConfigFile
    ensures configFile != "" ==> name == configFile
  {
    if configFile == "" then DefaultConfigFile else configFile
  }

  /**
   * The configuration read from the file: the decoded file; the built-in
   * default when the file does not exist and is the default-named one;
   * an error for any other failure.
   */
  function ReadConfig(env: Env, configFile: string): (r: Result<Config, Error>)
    ensures r.Success? ==> env.readConfig(ConfigFileName(configFile)) == Parsed(r.value) || r.value == DefaultConfig()
    ensures r.Failure? ==> r.error == ReadFailed(ConfigFileName(configFile)) || r.error == ParseFailed(ConfigFileName(configFile))
  {
    var name := ConfigFileName(configFile);
    match env.readConfig(name)
    case Parsed(config) => Success(config)
    case NotExist => if name == DefaultConfigFile then Success(DefaultConfig()) else Failure(ReadFailed(name))
    case ReadError => Failure(ReadFailed(name))
    case Malformed => Failure(ParseFailed(name))
  }

  /** The default applies exactly when the file read is missing and is named dimandocs.json. */
  lemma DefaultOnlyForMissingDefaultFile(env: Env, configFile: string)
    requires !env.readConfig(ConfigFileName(configFile)).Parsed?
    ensures ReadConfig(env, configFile).Success? <==>
              env.readConfig(ConfigFileName(configFile)).NotExist? && (configFile == "" || configFile == DefaultConfigFile)
    ensures ReadConfig(env, configFile).Success? ==> ReadConfig(env, configFile).value == DefaultConfig()
  {
  }

  /** A missing file that was named explicitly, under any other name, is an error naming it. */
  lemma MissingNamedFileFails(env: Env, configFile: string)
    requires configFile != "" && configFile != DefaultConfigFile
    requires env.readConfig(configFile).NotExist?
    ensures ReadConfig(env, configFile) == Failure(ReadFailed(configFile))
  {
  }

  /**
   * handleTargetPath: a directory replaces the configured directories with
   * itself; a file becomes the target file and its directory replaces them;
   * a path that cannot be resolved or does not exist is an error.  The
   * result is the new configuration and target file.
   */
  function TargetOverride(env: Env, config: Config, targetFile: string, targetPath: string): (r: Result<(Config, string), Error>)
    ensures r.Success? <==> env.abs(targetPath).Some? && env.stat(env.abs(targetPath).value) != StatMissing
    ensures r.Failure? ==> r.error == ResolveFailed(targetPath) || r.error == PathMissing(targetPath)
  {
    match env.abs(targetPath)
    case None => Failure(ResolveFailed(targetPath))
    case Some(absPath) =>
      match env.stat(absPath)
      case StatMissing => Failure(PathMissing(targetPath))
      case StatDir =>
        Success((config.(directories := [DirectoryConfig(absPath, DocumentsName, MarkdownPattern)]), targetFile))
      case StatFile =>
        Success((config.(directories := [DirectoryConfig(env.dir(absPath), DocumentsName, MarkdownPattern)]), absPath))
  }

  /**
   * After a successful override the configuration browses exactly one
   * directory, named "Documents", for markdown files, and everything else
   * of the configuration is as it was.
   */
  lemma OverrideKeepsTheRest(env: Env, config: Config, targetFile: string, targetPath: string)
    requires TargetOverride(env, config, targetFile, targetPath).Success?
    ensures var (c, t) := TargetOverride(env, config, targetFile, targetPath).value;
            && env.abs(targetPath).Some?
            && |c.directories| == 1
            && c.directories[0].name == DocumentsName && c.directories[0].filePattern == MarkdownPattern
            && c.(directories := config.directories) == config
            && (env.stat(env.abs(targetPath).value).StatDir? ==> c.directories[0].path == env.abs(targetPath).value && t == targetFile)
            && (env.stat(env.abs(targetPath).value).StatFile? ==>
                  t == env.abs(targetPath).value && c.directories[0].path == env.dir(t))
  {
  }

  /** A target path that does not exist is an error naming it. */
  lemma MissingTargetFails(env: Env, config: Config, targetFile: string, targetPath: string)
    requires env.abs(targetPath).Some? && env.stat(env.abs(targetPath).value).StatMissing?
    ensures TargetOverride(env, config, targetFile, targetPath) == Failure(PathMissing(targetPath))
  {
  }

  // ---------------------------------------------------------------------
  // Pattern compilation
  // ---------------------------------------------------------------------

  /** The position of the first pattern that does not compile, or |patterns|. */
  function FirstUncompilable(compiles: string -> bool, patterns: seq<string>): (k: nat)
    ensures k <= |patterns|
    ensures k < |patterns| ==> !compiles(patterns[k])
  {
    if patterns == [] then 0
    else if !compiles(patterns[0]) then 0
    else 1 + FirstUncompilable(compiles, patterns[1..])
  }

  /** Every pattern before the first that does not compile compiles. */
  lemma {:induction false} CompilesBeforeFirstFailure(compiles: string -> bool, patterns: seq<string>, j: nat)
    requires j < FirstUncompilable(compiles, patterns)
    ensures compiles(patterns[j])
  {
    if j > 0 {
      CompilesBeforeFirstFailure(compiles, patterns[1..], j - 1);
    }
  }

  /** The regexes compiled from some patterns, in order. */
  function Compiled(patterns: seq<string>): (rs: seq<Regex>)
    ensures |rs| == |patterns|
  {
    seq(|patterns|, i requires 0 <= i < |patterns| => Regex(patterns[i]))
  }

  /** The pattern a directory is scanned with: its own, or the README pattern when it gives none. */
  function EffectivePattern(dir: DirectoryConfig): (p: string)
    ensures dir.filePattern != "" ==> p == dir.filePattern
    ensures dir.filePattern == "" ==> p == ReadmePattern
  {
    if dir.filePattern == "" then ReadmePattern else dir.filePattern
  }

  /** The file patterns of the directories, in order. */
  function EffectivePatterns(dirs: seq<DirectoryConfig>): (ps: seq<string>)
    ensures |ps| == |dirs|
  {
    seq(|dirs|, i requires 0 <= i < |dirs| => EffectivePattern(dirs[i]))
  }

  /** The regex map built from the directories: each directory's path to its pattern, later ones overwriting. */
  function FileRegexMap(dirs: seq<DirectoryConfig>): map<string, Regex> {
    if dirs == [] then map[]
    else
      var last := dirs[|dirs| - 1];
      FileRegexMap(dirs[..|dirs| - 1])[last.path := Regex(EffectivePattern(last))]
  }

  /** Extending the directories by one adds (or overwrites) that directory's entry. */
  lemma FileRegexMapStep(dirs: seq<DirectoryConfig>, i: nat)
    requires i < |dirs|
    ensures FileRegexMap(dirs[..i + 1]) == FileRegexMap(dirs[..i])[dirs[i].path := Regex(EffectivePattern(dirs[i]))]
  {
    assert dirs[..i + 1][..i] == dirs[..i];
  }

  /**
   * The map has one key per directory path, and under each key the pattern
   * of the last directory with that path.
   */
  lemma {:induction false} FileRegexMapLastWins(dirs: seq<DirectoryConfig>, i: nat)
    requires i < |dirs|
    requires forall j :: i < j < |dirs| ==> dirs[j].path != dirs[i].path
    ensures dirs[i].path in FileRegexMap(dirs)
    ensures FileRegexMap(dirs)[dirs[i].path] == Regex(EffectivePattern(dirs[i]))
  {
    if i < |dirs| - 1 {
      FileRegexMapLastWins(dirs[..|dirs| - 1], i);
    }
  }

  lemma {:induction false} FileRegexMapKeys(dirs: seq<DirectoryConfig>)
    ensures FileRegexMap(dirs).Keys == set d | d in dirs :: d.path
  {
    if dirs != [] {
      var init := dirs[..|dirs| - 1];
      FileRegexMapKeys(init);
      assert dirs == init + [dirs[|dirs| - 1]];
      assert (set d | d in dirs :: d.path) == (set d | d in init :: d.path) + {dirs[|dirs| - 1].path};
    }
  }

  /** A directory without a file pattern is scanned for README.md files. */
  lemma EmptyPatternMeansReadme(dirs: seq<DirectoryConfig>, i: nat)
    requires i < |dirs| && dirs[i].filePattern == ""
    requires forall j :: i < j < |dirs| ==> dirs[j].path != dirs[i].path
    ensures dirs[i].path in FileRegexMap(dirs) && FileRegexMap(dirs)[dirs[i].path] == Regex("^(?i)(readme\\.md)$")
  {
    FileRegexMapLastWins(dirs, i);
  }

  /** A pattern that does not compile comes at or after the first one that does not. */
  lemma {:induction false} FirstUncompilableIsFirst(compiles: string -> bool, patterns: seq<string>, j: nat)
    requires j < |patterns| && !compiles(patterns[j])
    ensures FirstUncompilable(compiles, patterns) <= j
  {
    if j > 0 && compiles(patterns[0]) {
      FirstUncompilableIsFirst(compiles, patterns[1..], j - 1);
    }
  }

  // ---------------------------------------------------------------------
  // LoadConfig as a whole
  // ---------------------------------------------------------------------

  /**
   * The configuration and target file once the file is read and the
   * command-line path, when one is given, is applied: the override comes
   * before any pattern is compiled.
   */
  function ResolveConfig(env: Env, configFile: string, targetPath: string, targetFile: string): Result<(Config, string), Error> {
    match ReadConfig(env, configFile)
    case Failure(e) => Failure(e)
    case Success(config) =>
      if targetPath == "" then Success((config, targetFile)) else TargetOverride(env, config, targetFile, targetPath)
  }

  /**
   * The error LoadConfig returns, if any: the first failure among reading,
   * overriding, compiling the ignore patterns in order and compiling the
   * directories' file patterns in order.
   */
  function LoadError(env: Env, configFile: string, targetPath: string, targetFile: string): Option<Error> {
    match ResolveConfig(env, configFile, targetPath, targetFile)
    case Failure(e) => Some(e)
    case Success((config, _)) =>
      var ps := config.ignorePatterns;
      var k := FirstUncompilable(env.compiles, ps);
      if k < |ps| then Some(BadIgnorePattern(ps[k]))
      else
        var fs := EffectivePatterns(config.directories);
        var m := FirstUncompilable(env.compiles, fs);
        if m < |fs| then Some(BadFilePattern(fs[m], config.directories[m].path)) else None
  }

  /**
   * Loading succeeds exactly when the configuration resolves and every
   * ignore pattern and every directory's file pattern compiles.
   */
  lemma LoadSucceedsIffAllCompile(env: Env, configFile: string, targetPath: string, targetFile: string)
    ensures LoadError(env, configFile, targetPath, targetFile).None? <==>
              && ResolveConfig(env, configFile, targetPath, targetFile).Success?
              && var config := ResolveConfig(env, configFile, targetPath, targetFile).value.0;
                 && (forall j :: 0 <= j < |config.ignorePatterns| ==> env.compiles(config.ignorePatterns[j]))
                 && (forall j :: 0 <= j < |config.directories| ==> env.compiles(EffectivePattern(config.directories[j])))
  {
    var r := ResolveConfig(env, configFile, targetPath, targetFile);
    if r.Success? {
      var config := r.value.0;
      var ps := config.ignorePatterns;
      var fs := EffectivePatterns(config.directories);
      if FirstUncompilable(env.compiles, ps) == |ps| {
        forall j | 0 <= j < |ps| ensures env.compiles(ps[j]) {
          CompilesBeforeFirstFailure(env.compiles, ps, j);
        }
      }
      if FirstUncompilable(env.compiles, fs) == |fs| {
        forall j | 0 <= j < |config.directories| ensures env.compiles(EffectivePattern(config.directories[j])) {
          CompilesBeforeFirstFailure(env.compiles, fs, j);
          assert fs[j] == EffectivePattern(config.directories[j]);
        }
      } else {
        var m := FirstUncompilable(env.compiles, fs);
        assert !env.compiles(EffectivePattern(config.directories[m])) by {
          assert fs[m] == EffectivePattern(config.directories[m]);
        }
      }
    }
  }

  /**
   * With a target path, a successful load browses exactly the one
   * directory the path names, for markdown files, whatever the file said.
   */
  lemma TargetPathReplacesDirectories(env: Env, configFile: string, targetPath: string, targetFile: string)
    requires targetPath != ""
    requires ResolveConfig(env, configFile, targetPath, targetFile).Success?
    ensures var config := ResolveConfig(env, configFile, targetPath, targetFile).value.0;
            && |config.directories| == 1
            && config.directories[0].name == DocumentsName
            && EffectivePattern(config.directories[0]) == MarkdownPattern
            && config.ignorePatterns == ReadConfig(env, configFile).value.ignorePatterns
  {
    OverrideKeepsTheRest(env, ReadConfig(env, configFile).value, targetFile, targetPath);
  }
}
