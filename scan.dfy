/**
 * What scanning one source directory yields: the walk over the directory
 * tree with its ignore patterns and file pattern, and the document made for
 * each file it processes.  The walk itself, which appends to the
 * application's document list, is `App.ScanDirectory`; this module gives
 * the values it is proved against and what holds of them.
 */
module Scan {
  import opened Wrappers
  import opened GoStrings
  import opened Models
  import opened Platform
  import opened Metadata

  /** What one walk works with: the oracles, the working directory, the ignore list, the source. */
  datatype ScanContext = ScanContext(
    env: Env,
    workingDir: string,
    ignore: seq<Regex>,
    fileRegex: Regex,
    rootDir: string,
    sourceName: string)

  /** The documents a walk appended, and whether it ran to the end (false: it stopped on an error). */
  datatype WalkResult = WalkResult(docs: seq<Document>, ok: bool)

  /** shouldIgnorePath: some ignore pattern matches the full path. */
  predicate IgnoredBy(ignore: seq<Regex>, matches: (string, string) -> bool, path: string) {
    exists k :: 0 <= k < |ignore| && matches(ignore[k].pattern, path)
  }

  predicate Ignored(ctx: ScanContext, path: string) {
    IgnoredBy(ctx.ignore, ctx.env.matches, path)
  }

  /**
   * The path the walk gives an entry inside directory `path`: filepath.Join,
   * which cleans it ("./" and "a" give "a", not ".//a").
   */
  function ChildPath(env: Env, path: string, name: string): string {
    env.join(path, name)
  }

  /**
   * The document processFile builds for the file at `path` named `name`
   * with text `content`: relative path and DirName from the source root,
   * AbsPath from the working directory, title and overview from the text.
   * A failed filepath.Rel leaves the relative path empty, as in the source.
   */
  function MakeDocument(ctx: ScanContext, path: string, name: string, content: string): (d: Document)
    ensures d.path == path && d.content == content
    ensures d.sourceDir == ctx.rootDir && d.sourceName == ctx.sourceName
  {
    var relPath := ctx.env.rel(ctx.rootDir, path).GetOr("");
    var dirName := DirNameOf(ctx.env.dir(relPath), name);
    Document(
      TitleOf(content, dirName),
      path,
      content,
      relPath,
      dirName,
      ctx.rootDir,
      ctx.sourceName,
      DisplayAbsPath(ctx.env.relDir(ctx.workingDir, path)),
      OverviewOf(content))
  }

  /** processFile: one document when the file can be read, none (the error is logged) otherwise. */
  function Processed(ctx: ScanContext, path: string, name: string): (r: seq<Document>)
    ensures |r| <= 1 && (|r| == 1 <==> ctx.env.readFile(path).Some?)
  {
    match ctx.env.readFile(path)
    case None => []
    case Some(content) => [MakeDocument(ctx, path, name, content)]
  }

  /**
   * The walk callback applied to an entry and, for a directory that is not
   * ignored, to its children in order.  An entry that cannot be stat'ed and
   * a directory that cannot be listed stop the walk, before the ignore test.
   * An ignored directory is skipped with everything under it, an ignored
   * file is passed over, and a file whose name matches the pattern is
   * processed.
   */
  function Walk(ctx: ScanContext, path: string, e: Entry): WalkResult
    decreases e, 1
  {
    match e
    case Unstatable(_) => WalkResult([], false)
    case Unlistable(_) => WalkResult([], false)
    case File(name) =>
      if Ignored(ctx, path) then WalkResult([], true)
      else if ctx.env.matches(ctx.fileRegex.pattern, name) then WalkResult(Processed(ctx, path, name), true)
      else WalkResult([], true)
    case Dir(_, _) =>
      if Ignored(ctx, path) then WalkResult([], true)
      else WalkChildren(ctx, path, e, 0)
  }

  /** The walk over the children of directory `e` from the `k`-th on; it stops at the first that fails. */
  function WalkChildren(ctx: ScanContext, path: string, e: Entry, k: nat): WalkResult
    requires e.Dir? && k <= |e.children|
    decreases e, 0, |e.children| - k
  {
    if k == |e.children| then WalkResult([], true)
    else
      var child := e.children[k];
      var r := Walk(ctx, ChildPath(ctx.env, path, child.name), child);
      if !r.ok then r
      else
        var rest := WalkChildren(ctx, path, e, k + 1);
        WalkResult(r.docs + rest.docs, rest.ok)
  }

  /** The walk of the children from the `k`-th on: that child's walk, then, if it ran to the end, the rest. */
  lemma WalkChildrenStep(ctx: ScanContext, path: string, e: Entry, k: nat)
    requires e.Dir? && k < |e.children|
    ensures var r := Walk(ctx, ChildPath(ctx.env, path, e.children[k].name), e.children[k]);
            var rest := WalkChildren(ctx, path, e, k + 1);
            WalkChildren(ctx, path, e, k) == if r.ok then WalkResult(r.docs + rest.docs, rest.ok) else r
  {
  }

  /** scanDirectory: the walk from the source's root directory. */
  function ScanResult(ctx: ScanContext): WalkResult {
    Walk(ctx, ctx.rootDir, ctx.env.tree(ctx.rootDir))
  }

  // ---------------------------------------------------------------------
  // What the walk produces
  // ---------------------------------------------------------------------

  /** An entry that would stop the walk: one that cannot be stat'ed or listed, at any depth. */
  predicate HasFault(e: Entry)
    decreases e, 1
  {
    match e
    case Unstatable(_) => true
    case Unlistable(_) => true
    case File(_) => false
    case Dir(_, children) => exists k :: 0 <= k < |children| && HasFaultAt(e, k)
  }

  predicate HasFaultAt(e: Entry, k: nat)
    requires e.Dir? && k < |e.children|
    decreases e, 0
  {
    HasFault(e.children[k])
  }

  /** The files a fault-free walk processes, in walk order: (path, name) of each. */
  function Candidates(ctx: ScanContext, path: string, e: Entry): seq<(string, string)>
    decreases e, 1
  {
    match e
    case File(name) =>
      if !Ignored(ctx, path) && ctx.env.matches(ctx.fileRegex.pattern, name) then [(path, name)] else []
    case Dir(_, _) =>
      if Ignored(ctx, path) then [] else CandidatesIn(ctx, path, e, 0)
    case _ => []
  }

  function CandidatesIn(ctx: ScanContext, path: string, e: Entry, k: nat): seq<(string, string)>
    requires e.Dir? && k <= |e.children|
    decreases e, 0, |e.children| - k
  {
    if k == |e.children| then []
    else
      var child := e.children[k];
      Candidates(ctx, ChildPath(ctx.env, path, child.name), child) + CandidatesIn(ctx, path, e, k + 1)
  }

  /** The documents processing a list of files yields, skipping the files that cannot be read. */
  function ProcessAll(ctx: ScanContext, files: seq<(string, string)>): seq<Document> {
    if files == [] then [] else Processed(ctx, files[0].0, files[0].1) + ProcessAll(ctx, files[1..])
  }

  lemma {:induction false} ProcessAllAppend(ctx: ScanContext, a: seq<(string, string)>, b: seq<(string, string)>)
    ensures ProcessAll(ctx, a + b) == ProcessAll(ctx, a) + ProcessAll(ctx, b)
  {
    if a == [] {
      assert a + b == b;
    } else {
      assert (a + b)[1..] == a[1..] + b;
      ProcessAllAppend(ctx, a[1..], b);
    }
  }

  /**
   * A walk that meets no fault runs to the end and yields exactly one
   * document per readable file that is not ignored, lies under no ignored
   * directory and has a matching name, in walk order.
   */
  lemma {:induction false} FaultFreeWalk(ctx: ScanContext, path: string, e: Entry)
    requires !HasFault(e)
    ensures Walk(ctx, path, e) == WalkResult(ProcessAll(ctx, Candidates(ctx, path, e)), true)
    decreases e, 1
  {
    match e
    case File(name) =>
      var c := Candidates(ctx, path, e);
      if c != [] {
        assert c[1..] == [];
      }
    case Dir(_, _) =>
      if !Ignored(ctx, path) {
        FaultFreeChildren(ctx, path, e, 0);
      }
  }

  lemma {:induction false} FaultFreeChildren(ctx: ScanContext, path: string, e: Entry, k: nat)
    requires e.Dir? && k <= |e.children| && !HasFault(e)
    ensures WalkChildren(ctx, path, e, k) == WalkResult(ProcessAll(ctx, CandidatesIn(ctx, path, e, k)), true)
    decreases e, 0, |e.children| - k
  {
    if k < |e.children| {
      var child := e.children[k];
      var cp := ChildPath(ctx.env, path, child.name);
      assert !HasFaultAt(e, k);
      FaultFreeWalk(ctx, cp, child);
      FaultFreeChildren(ctx, path, e, k + 1);
      ProcessAllAppend(ctx, Candidates(ctx, cp, child), CandidatesIn(ctx, path, e, k + 1));
    }
  }

  /**
   * Every document a walk yields is for a file that is not ignored, was
   * read with the document's content, and belongs to the walk's source.
   */
  lemma {:induction false} WalkDocuments(ctx: ScanContext, path: string, e: Entry, d: Document)
    requires d in Walk(ctx, path, e).docs
    ensures !Ignored(ctx, d.path) && ctx.env.readFile(d.path) == Some(d.content)
    ensures d.sourceDir == ctx.rootDir && d.sourceName == ctx.sourceName
    decreases e, 1
  {
    match e
    case File(name) =>
    case Dir(_, _) =>
      WalkChildrenDocuments(ctx, path, e, 0, d);
  }

  lemma {:induction false} WalkChildrenDocuments(ctx: ScanContext, path: string, e: Entry, k: nat, d: Document)
    requires e.Dir? && k <= |e.children|
    requires d in WalkChildren(ctx, path, e, k).docs
    ensures !Ignored(ctx, d.path) && ctx.env.readFile(d.path) == Some(d.content)
    ensures d.sourceDir == ctx.rootDir && d.sourceName == ctx.sourceName
    decreases e, 0, |e.children| - k
  {
    var child := e.children[k];
    var r := Walk(ctx, ChildPath(ctx.env, path, child.name), child);
    if d in r.docs {
      WalkDocuments(ctx, ChildPath(ctx.env, path, child.name), child, d);
    } else {
      WalkChildrenDocuments(ctx, path, e, k + 1, d);
    }
  }

  /** Whether a walk stops does not depend on which files can be read: processing errors never stop it. */
  lemma {:induction false} ReadErrorsNeverStop(ctx: ScanContext, path: string, e: Entry, readFile: string -> Option<string>)
    ensures Walk(ctx.(env := ctx.env.(readFile := readFile)), path, e).ok == Walk(ctx, path, e).ok
    decreases e, 1
  {
    match e
    case Dir(_, _) =>
      ReadErrorsNeverStopChildren(ctx, path, e, 0, readFile);
    case _ =>
  }

  lemma {:induction false} ReadErrorsNeverStopChildren(ctx: ScanContext, path: string, e: Entry, k: nat, readFile: string -> Option<string>)
    requires e.Dir? && k <= |e.children|
    ensures WalkChildren(ctx.(env := ctx.env.(readFile := readFile)), path, e, k).ok == WalkChildren(ctx, path, e, k).ok
    decreases e, 0, |e.children| - k
  {
    if k < |e.children| {
      var child := e.children[k];
      ReadErrorsNeverStop(ctx, ChildPath(ctx.env, path, child.name), child, readFile);
      ReadErrorsNeverStopChildren(ctx, path, e, k + 1, readFile);
    }
  }

  /** A walk that stops has met an entry that cannot be stat'ed or listed. */
  lemma {:induction false} StopMeansFault(ctx: ScanContext, path: string, e: Entry)
    requires !Walk(ctx, path, e).ok
    ensures HasFault(e)
    decreases e, 1
  {
    match e
    case Dir(_, _) =>
      StopMeansFaultChildren(ctx, path, e, 0);
    case _ =>
  }

  lemma {:induction false} StopMeansFaultChildren(ctx: ScanContext, path: string, e: Entry, k: nat)
    requires e.Dir? && k <= |e.children|
    requires !WalkChildren(ctx, path, e, k).ok
    ensures exists j :: k <= j < |e.children| && HasFaultAt(e, j)
    decreases e, 0, |e.children| - k
  {
    var child := e.children[k];
    if !Walk(ctx, ChildPath(ctx.env, path, child.name), child).ok {
      StopMeansFault(ctx, ChildPath(ctx.env, path, child.name), child);
      assert HasFaultAt(e, k);
    } else {
      StopMeansFaultChildren(ctx, path, e, k + 1);
    }
  }

  /** An ignored directory contributes nothing, whatever it holds, even entries that would stop the walk. */
  lemma IgnoredDirectoryHidesAll(ctx: ScanContext, path: string, name: string, children: seq<Entry>)
    requires Ignored(ctx, path)
    ensures Walk(ctx, path, Dir(name, children)) == WalkResult([], true)
  {
  }

  /** A directory that cannot be listed stops the walk even when it is ignored. */
  lemma UnlistableStopsEvenIfIgnored(ctx: ScanContext, path: string, name: string)
    ensures !Walk(ctx, path, Unlistable(name)).ok
  {
  }

  // ---------------------------------------------------------------------
  // All configured directories (ScanDirectories)
  // ---------------------------------------------------------------------

  /** The documents of a scan of several directories, and the first directory whose walk stopped, if any. */
  datatype ScanOutcome = ScanOutcome(docs: seq<Document>, failed: Option<string>)

  /** The walk context of one configured directory: its path, its name and its compiled file pattern. */
  function DirContext(env: Env, workingDir: string, ignore: seq<Regex>, fileRegexes: map<string, Regex>, dir: DirectoryConfig): ScanContext
    requires dir.path in fileRegexes
  {
    ScanContext(env, workingDir, ignore, fileRegexes[dir.path], dir.path, dir.name)
  }

  /** The directories scanned in order; the first walk that stops ends the scan. */
  function ScanAll(env: Env, workingDir: string, ignore: seq<Regex>, fileRegexes: map<string, Regex>, dirs: seq<DirectoryConfig>): ScanOutcome
    requires forall k :: 0 <= k < |dirs| ==> dirs[k].path in fileRegexes
  {
    if dirs == [] then ScanOutcome([], None)
    else
      var r := ScanResult(DirContext(env, workingDir, ignore, fileRegexes, dirs[0]));
      if !r.ok then ScanOutcome(r.docs, Some(dirs[0].path))
      else
        var rest := ScanAll(env, workingDir, ignore, fileRegexes, dirs[1..]);
        ScanOutcome(r.docs + rest.docs, rest.failed)
  }

  /** The scan from the `i`-th directory on: that directory's walk, then, if it ran to the end, the rest. */
  lemma ScanAllStep(env: Env, workingDir: string, ignore: seq<Regex>, fileRegexes: map<string, Regex>, dirs: seq<DirectoryConfig>, i: nat)
    requires forall k :: 0 <= k < |dirs| ==> dirs[k].path in fileRegexes
    requires i < |dirs|
    ensures var r := ScanResult(DirContext(env, workingDir, ignore, fileRegexes, dirs[i]));
            var rest := ScanAll(env, workingDir, ignore, fileRegexes, dirs[i + 1..]);
            ScanAll(env, workingDir, ignore, fileRegexes, dirs[i..]) ==
              if r.ok then ScanOutcome(r.docs + rest.docs, rest.failed) else ScanOutcome(r.docs, Some(dirs[i].path))
  {
    assert dirs[i..][0] == dirs[i] && dirs[i..][1..] == dirs[i + 1..];
  }

  /**
   * A scan stops only at a configured directory whose tree holds an entry
   * that cannot be stat'ed or listed, and every document it yields comes
   * from a configured directory, under that directory's name, with the
   * content read from its file, at a path no ignore pattern matches.
   */
  lemma {:induction false} ScanAllSound(env: Env, workingDir: string, ignore: seq<Regex>, fileRegexes: map<string, Regex>, dirs: seq<DirectoryConfig>)
    requires forall k :: 0 <= k < |dirs| ==> dirs[k].path in fileRegexes
    ensures var out := ScanAll(env, workingDir, ignore, fileRegexes, dirs);
            && (out.failed.Some? ==> exists k :: 0 <= k < |dirs| && dirs[k].path == out.failed.value && HasFault(env.tree(dirs[k].path)))
            && (forall d :: d in out.docs ==>
                  && !IgnoredBy(ignore, env.matches, d.path)
                  && env.readFile(d.path) == Some(d.content)
                  && exists k :: 0 <= k < |dirs| && d.sourceDir == dirs[k].path && d.sourceName == dirs[k].name)
  {
    if dirs != [] {
      var ctx := DirContext(env, workingDir, ignore, fileRegexes, dirs[0]);
      var r := ScanResult(ctx);
      var out := ScanAll(env, workingDir, ignore, fileRegexes, dirs);
      forall d | d in r.docs
        ensures !IgnoredBy(ignore, env.matches, d.path) && env.readFile(d.path) == Some(d.content)
        ensures d.sourceDir == dirs[0].path && d.sourceName == dirs[0].name
      {
        WalkDocuments(ctx, ctx.rootDir, env.tree(ctx.rootDir), d);
      }
      if !r.ok {
        StopMeansFault(ctx, ctx.rootDir, env.tree(ctx.rootDir));
      } else {
        ScanAllSound(env, workingDir, ignore, fileRegexes, dirs[1..]);
        var rest := ScanAll(env, workingDir, ignore, fileRegexes, dirs[1..]);
        forall d | d in rest.docs
          ensures exists k :: 0 <= k < |dirs| && d.sourceDir == dirs[k].path && d.sourceName == dirs[k].name
        {
          var k :| 0 <= k < |dirs[1..]| && d.sourceDir == dirs[1..][k].path && d.sourceName == dirs[1..][k].name;
          assert dirs[k + 1] == dirs[1..][k];
        }
        if rest.failed.Some? {
          var k :| 0 <= k < |dirs[1..]| && dirs[1..][k].path == rest.failed.value && HasFault(env.tree(dirs[1..][k].path));
          assert dirs[k + 1] == dirs[1..][k];
        }
      }
    }
  }

  /** When no configured tree holds a fault, the scan runs through every directory. */
  lemma {:induction false} FaultFreeScan(env: Env, workingDir: string, ignore: seq<Regex>, fileRegexes: map<string, Regex>, dirs: seq<DirectoryConfig>)
    requires forall k :: 0 <= k < |dirs| ==> dirs[k].path in fileRegexes && !HasFault(env.tree(dirs[k].path))
    ensures ScanAll(env, workingDir, ignore, fileRegexes, dirs).failed.None?
  {
    if dirs != [] {
      var ctx := DirContext(env, workingDir, ignore, fileRegexes, dirs[0]);
      FaultFreeWalk(ctx, ctx.rootDir, env.tree(ctx.rootDir));
      FaultFreeScan(env, workingDir, ignore, fileRegexes, dirs[1..]);
    }
  }
}
