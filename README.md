# DimanDocs index pipeline, modelled in Dafny

DimanDocs is a local documentation browser. It reads a JSON configuration
naming source directories, walks them for markdown files, derives metadata for
each file, and keeps a document list. The list feeds an index page (documents
grouped by source, and one directory tree per source), a search endpoint and a
document page. The list can also be saved to a metadata-only cache and loaded
back, with contents read lazily.

This project models that pipeline:

- `Configuration` and `App.LoadConfig` cover config resolution: the default
  file name, the built-in default, the command-line target path, and the
  fail-fast compilation of the ignore and file patterns.
- `Scan` and the scanning methods of `App` cover the walk: ignore pruning,
  file-pattern selection, per-file processing and which errors stop the walk.
- `Metadata` derives the Overview, title, DirName and AbsPath, and strips
  front matter.
- `Index` builds the groups and trees; `Tree` holds the tree insertion.
- `Cache` holds the cache conversion and the lazy content loader.
- `Search` holds the search filter and the document and file look-ups.
- `App.Initialize` is the cache-or-scan sequence, and `App.HandleSearch` /
  `App.HandleDocument` are the two request handlers' effects on the list.

Everything outside the program is an oracle in `Platform.Env`: the file
system as an `Entry` tree, file reads, regex compilation and matching,
`filepath.Abs/Rel/Dir`, `os.Stat`, `os.Getwd`, and the cache file. Reading the
same path twice gives the same answer.

Each loop of the source is a method proved against a function. What the
source promises is proved about those functions as lemmas.

The model follows the code as written, including these behaviours that a
reader of the program's own text might not expect:

- A directory two levels above the working directory is shown as `/../foo`,
  not `/foo`. Only one `../` is removed (`Metadata.DisplayAbsPathTwoLevels`).
- The built-in configuration ignores exactly five folders (node_modules, .git,
  vendor, build, dist). The usage text at main.go:56-68 promises many more
  (.svn, .hg, bower_components, out, target, .next, caches, IDE folders and
  others).
- A walk stops on any entry below the root that cannot be stat'ed or listed,
  not only on the root itself.
- `App` in models.go declares no `UseCache` field, although app.go reads and
  writes one. The model passes `useCache` as a parameter of `Initialize` and
  `HandleSearch`.
- A configured directory without a file pattern is scanned for README files
  only (`^(?i)(readme\.md)$`, `Configuration.EffectivePattern`), not for
  every markdown file.

## Model

| member | source | states |
|---|---|---|
| Configuration.ReadConfig | config.go:14-32 | the configuration read: the decoded file, or the default when the file is missing; otherwise a read or parse error naming the file |
| Configuration.TargetOverride | config.go:99-137 | the override succeeds iff the path resolves to an absolute path that exists; otherwise an error naming the path as given |
| Configuration.DefaultConfigContents | config.go:77-96 | the default browses "./" as "Documents" for `\.md$`, port "8090", title "Documentation Browser", exactly five ignore patterns |
| Configuration.ConfigFileName | config.go:14-16 | an empty name becomes dimandocs.json, and any other name is kept |
| Configuration.DefaultOnlyForMissingDefaultFile | config.go:19-26 | when the file is not decoded, reading succeeds iff it is missing and named dimandocs.json, and then yields the default |
| Configuration.MissingNamedFileFails | config.go:20-26 | a missing file under any other explicit name is a read error naming it |
| Configuration.OverrideKeepsTheRest | config.go:99-137 | a successful override leaves one directory named "Documents" with pattern `\.md$` and keeps every other field. A directory target is that directory, with TargetFile unchanged. A file target sets TargetFile to the absolute path and uses its parent |
| Configuration.MissingTargetFails | config.go:106-110 | a target that does not exist is an error naming the path as given |
| Configuration.TargetPathReplacesDirectories | config.go:34-39 | with a target path, a successful resolution browses exactly one directory, and the ignore patterns are still the file's |
| Configuration.FirstUncompilable | config.go:42-62 | the position returned is at most the length and, when inside, names a pattern that does not compile |
| Configuration.CompilesBeforeFirstFailure | config.go:42-48 | every pattern before the first failure compiles |
| Configuration.FirstUncompilableIsFirst | config.go:42-48 | any pattern that does not compile is at or after the first failure, so compilation stops at the earliest bad pattern |
| Configuration.EffectivePattern | config.go:53-56 | an empty file pattern means `^(?i)(readme\.md)$`, and any other is kept |
| Configuration.FileRegexMapStep | config.go:61 | one more directory adds or overwrites its own path's entry |
| Configuration.FileRegexMapLastWins | config.go:51-62 | a directory path maps to the pattern of the last directory with that path |
| Configuration.FileRegexMapKeys | config.go:51-62 | the map's keys are exactly the directory paths |
| Configuration.EmptyPatternMeansReadme | config.go:53-56 | a directory without a file pattern is scanned with the README pattern |
| Configuration.DefaultConfig | config.go:77-96 | the built-in configuration; `Configuration.DefaultConfigContents` states its contents |
| Configuration.ResolveConfig | config.go:13-39 | the read configuration, then the target-path override when a target path is given; the error of the first step that fails |
| Configuration.LoadError | config.go:13-65 | the error LoadConfig returns: the first failure among resolution, the ignore patterns in order and the file patterns in order; `Configuration.LoadSucceedsIffAllCompile` characterises it |
| Configuration.FileRegexMap | config.go:50-62 | each directory path mapped to its effective pattern, later directories overwriting; `Configuration.FileRegexMapKeys` and `Configuration.FileRegexMapLastWins` state it |
| Configuration.LoadSucceedsIffAllCompile | config.go:13-65 | loading succeeds iff the configuration resolves and every ignore and file pattern compiles |
| Application.App.constructor | app.go:44-48 | a new application has empty fields and an empty file-pattern map |
| Application.App.LoadConfig | config.go:13-65 | the error is the first failure among read, override, ignore and file patterns. The override precedes compilation. Ignore regexes are appended to the old list; the file map is rebuilt. A failed read leaves the old state. A failed override leaves the file's config with the old target file and regexes |
| Application.App.ReadConfigFile | config.go:14-32 | config becomes the decoded file or the default, or an error is returned and config is unchanged |
| Application.App.HandleTargetPath | config.go:99-137 | config and TargetFile become the override's result, or an error is returned with both unchanged |
| Application.App.CompileIgnorePatterns | config.go:41-48 | the patterns before the first failure are compiled and appended in order; the failing one is named in the error |
| Application.CompileFileRegexes | config.go:50-62 | the loop builds `Configuration.FileRegexMap` of the directories before the first failing pattern; the error names that pattern and its directory |
| Application.App.CompileFilePatterns | config.go:50-62 | the map field becomes the one `Application.CompileFileRegexes` builds; nothing else changes |
| Application.App.ShouldIgnorePath | app.go:227-234 | true iff some ignore regex matches the full path |
| Application.App.ProcessFile | app.go:167-224 | a readable file appends exactly the document `Scan.MakeDocument` describes; an unreadable one appends nothing and reports failure |
| Application.App.WalkEntry | app.go:103-127 | appends exactly the documents of the walk from an entry and returns whether it ran to the end |
| Application.App.VisitFile | app.go:109-123 | an ignored file adds nothing; a file whose name matches is processed, and a read failure does not stop the walk |
| Application.App.WalkDirectory | app.go:103-127 | the children are walked in order, and the first failure stops the walk |
| Application.App.ScanDirectory | app.go:103-127 | appends the documents of the walk from the source root |
| Application.App.ScanDirectories | app.go:93-100 | appends the documents of the directories in order, and the first failed walk ends it with an error naming that directory |
| Application.App.LoadFromCache | app.go:626-656 | a stored cache replaces the list with its entries, contents empty; otherwise nothing changes |
| Application.App.SaveToCache | app.go:678-711 | writes every document without its content, plus the version, unless the write fails |
| Application.App.Initialize | app.go:51-90 | getwd failure leaves the state. A config error is returned without scanning. A cache hit installs the cache and saves nothing. Otherwise all directories are scanned and, when successful with the cache enabled, saved |
| Application.App.LoadOrScan | app.go:65-88 | after a load: a cache hit, or a scan followed by a save |
| Application.App.ConfiguredAfterLoad | config.go:13-65 | a load that returned no error leaves the resolved config and target file, all ignore patterns appended, and the full file map |
| Application.App.LoadDocumentContents | app.go:659-676 | the list becomes `Cache.LoadedAll` of the old list: same length and order, in place |
| Application.App.HandleSearch | app.go:460-491 | a blank query loads nothing and finds nothing. Otherwise contents are loaded first when the cache is used, and the results are `Search.SearchResults` over the list |
| Application.App.HandleDocument | app.go:401-437 | not found leaves the list; an unreadable unloaded document is an error; otherwise that one entry is loaded in place and served with its front matter stripped |
| Scan.Processed | app.go:167-171 | processFile's yield: one document iff the file can be read, none otherwise |
| Scan.Walk | app.go:103-127 | reference definition of the walk from one entry. An unstat'able entry or unlistable directory stops it, before the ignore test. An ignored directory is skipped whole, and a matching file is processed |
| Scan.WalkChildren | app.go:103-127 | reference definition of the walk over a directory's children from one on, stopping at the first that stops |
| Scan.ScanAll | app.go:93-100 | reference definition of ScanDirectories: the directories in order, ending at the first walk that stops and naming that directory |
| Scan.MakeDocument | app.go:167-222 | the document carries the file's path and content and the source's directory and name |
| Scan.WalkChildrenStep | app.go:103-127 | the walk of the children is the first child's walk, then the rest if it did not stop |
| Scan.FaultFreeWalk | app.go:103-127 | without unreadable entries the walk runs to the end and yields the processed candidates in walk order |
| Scan.FaultFreeChildren | app.go:103-127 | the same for the children of a directory from any position on |
| Scan.WalkDocuments | app.go:103-127 | every document yielded is at a path no ignore pattern matches, has the content its read gave, and belongs to the walked source |
| Scan.WalkChildrenDocuments | app.go:103-127 | the same for the children of a directory |
| Scan.ReadErrorsNeverStop | app.go:117-120 | whether the walk runs to the end does not depend on which files can be read |
| Scan.ReadErrorsNeverStopChildren | app.go:117-120 | the same for the children of a directory |
| Scan.StopMeansFault | app.go:104-107 | a walk stops only if some entry in the tree cannot be stat'ed or listed |
| Scan.StopMeansFaultChildren | app.go:104-107 | the same for the children of a directory |
| Scan.IgnoredDirectoryHidesAll | app.go:109-113 | an ignored directory yields nothing, whatever lies under it |
| Scan.UnlistableStopsEvenIfIgnored | app.go:104-106 | an unlistable directory stops the walk even when an ignore pattern matches it |
| Scan.ProcessAllAppend | app.go:114-121 | processing two runs of candidates is processing each in turn |
| Scan.ScanAllStep | app.go:94-98 | scanning from a directory on is that directory's walk, then the rest if it did not stop |
| Scan.ScanAllSound | app.go:93-100 | a scan stops only at a configured directory with an unreadable entry. Every document comes from a configured directory under its name, has its file's content, and is not ignored |
| Scan.FaultFreeScan | app.go:93-100 | with no unreadable entries in any configured tree, the scan reports no failure |
| Metadata.Paragraph | app.go:145-159 | reference definition of the collecting state machine over the trimmed lines after the Overview heading |
| Metadata.OverviewOf | app.go:130-164 | reference definition of the Overview: "" without a heading, else the paragraph's lines joined by spaces; `Metadata.OverviewIsFirstParagraph` states it |
| Metadata.TitleOf | app.go:196-205 | reference definition of the title; `Metadata.TitleFromFirstHeading` states it |
| Metadata.Stripped | app.go:375-398 | reference definition of the rendered text; `Metadata.FrontmatterRemovedExactly` states it |
| Metadata.OverviewAbsent | app.go:135-142 | without a line whose trimmed form starts with "## Overview" the Overview is "" |
| Metadata.OverviewIsFirstParagraph | app.go:130-164 | the Overview is the trimmed lines of the first paragraph after the first heading, joined by single spaces, with the leading blank lines skipped |
| Metadata.ParagraphAfterBlanks | app.go:145-159 | after blank lines or repeated headings, the first content line is taken even if it starts with `#`, then plain lines up to a blank or heading |
| Metadata.ParagraphContinues | app.go:152-159 | once collecting, a run of non-blank lines without `#` is taken whole |
| Metadata.ParagraphLines | app.go:145-159 | every collected line is non-blank, is not an Overview heading, and comes from the text |
| Metadata.ExtractOverviewParagraph | app.go:130-164 | the loop returns `Metadata.OverviewOf` of the text |
| Metadata.TitleFromFirstHeading | app.go:196-205 | the title is the rest of the first line starting with "# ", which holds no newline, or the DirName when no line does |
| Metadata.ExtractTitle | app.go:196-205 | the loop returns `Metadata.TitleOf` |
| Metadata.DirNameOf | app.go:174-185 | DirName ends with the file name. It is just the file name iff the directory is "." or "Root"; otherwise it is "dir/name" |
| Metadata.RootDirectoryCollision | app.go:175-182 | a file at the root and a file in a subdirectory named "Root" get the same DirName |
| Metadata.DisplayAbsPath | app.go:191-194 | a directory above the working directory loses exactly one "../" and is rooted at "/"; anything else is shown as it is |
| Metadata.DisplayAbsPathTwoLevels | app.go:191-194 | "../../foo" is shown as "/../foo", "../foo" as "/foo", and ".." unchanged |
| Metadata.ClosingDelimiter | app.go:388-394 | the index found is the first line from 1 on that trims to "---", or the end |
| Metadata.StripFrontmatter | app.go:375-398 | the loop returns `Metadata.Stripped` |
| Metadata.FrontmatterRemovedExactly | app.go:375-398 | when front matter is removed, the text is the opening lines through the closing "---" line, a newline, then the result |
| Search.NormalizeQuery | app.go:461 | the query trimmed, then lowercased |
| Search.Filter | app.go:480-488 | the matching documents in list order: never more than the list, each listed and matching |
| Search.SearchResults | app.go:461-488 | nothing for a blank query, the filter of the list otherwise; `Search.BlankQueryFindsNothing` and `Search.QueryFindsMatches` state it |
| Search.FilterDocuments | app.go:480-488 | the loop returns `Search.Filter` of the list |
| Search.FilterMembership | app.go:480-488 | a document is a result iff it is in the list and its lowercased title, content or overview contains the query |
| Search.FilterAppend | app.go:480-488 | filtering keeps list order: the filter of a concatenation is the concatenation of the filters |
| Search.FilterSingle | app.go:482-486 | a single document is kept iff it matches |
| Search.BlankQueryFindsNothing | app.go:461-467 | a query of white space only yields no results |
| Search.QueryFindsMatches | app.go:461-488 | for any other query, the results are exactly the listed documents that match the normalised query |
| Search.RequestedRelPath | app.go:402 | the requested path is the URL path without its "/doc/" prefix, or the whole path without one |
| Search.IndexOf | app.go:404-410 | -1 iff no document has the RelPath; otherwise the first that has it |
| Search.FindDocument | app.go:404-410 | the loop returns `Search.IndexOf` |
| Search.FileURL | app.go:536-548 | fails, with "file not found in documents", iff no document's path resolves to the target. Otherwise "/doc/" plus the RelPath of the first that does, skipping unresolvable paths |
| Cache.CacheOf | app.go:681-694 | what is written: one entry per document in order, with its path and RelPath, plus the version |
| Cache.DocumentsOf | app.go:640-653 | what a load installs: one document per entry in order, with its path and empty content |
| Cache.LoadedAll | app.go:659-676 | every document passed through the lazy loader, in place: same length, and loaded documents unchanged |
| Cache.SaveToCache | app.go:681-699 | the loop builds `Cache.CacheOf` of the list and version |
| Cache.LoadFromCache | app.go:639-653 | the loop builds `Cache.DocumentsOf` of the stored data |
| Cache.SaveThenLoad | app.go:640-694 | save then load gives the same length and order, every field but Content equal, and Content "" |
| Cache.LoadThenSave | app.go:640-694 | load then save gives back the stored entries |
| Cache.LoadIgnoresVersion | app.go:634-655 | the stored version does not affect what is loaded |
| Cache.LoadChangesOnlyUnloaded | app.go:660-674 | only a document with empty content whose read succeeds changes, and only its content, to what was read |
| Cache.LoadIdempotent | app.go:660-674 | loading twice is loading once |
| Cache.CacheThenLoadRestores | app.go:626-711 | when files still hold their scanned content, save, load and lazy load give the scanned list back |
| Index.GroupMap | app.go:240-242 | reference definition of the grouping map; `Index.GroupMapHoldsGroups` states it |
| Index.TreeOf | app.go:266-281 | a source's tree nodes after inserting its documents in order: well formed, with the root present; `Index.TreeOfValid` states more |
| Index.GroupMapHoldsGroups | app.go:240-242 | the map's keys are the source names, and each holds that source's documents in list order |
| Index.GroupMembership | app.go:237-253 | a document is in a group iff it is in the list with that source name |
| Index.GroupCopies | app.go:237-253 | a group holds as many copies of a document as the list does, for its source, and none otherwise |
| Index.CollectGroups | app.go:240-242 | the loop builds `Index.GroupMap` of the list |
| Index.GroupDocumentsByDirectory | app.go:237-253 | one group per source name in map order, each holding exactly that source's documents in list order |
| Index.GroupsPartition | app.go:237-253 | the groups partition the list: each document is in exactly its source's group, and the sizes add up to the list's length |
| Index.TotalCounts | app.go:237-253 | the group sizes add up to the number of documents |
| Index.TreeOfValid | app.go:266-281 | a source's tree has only the root open, distinct sibling names, and files exactly at the nodes carrying documents |
| Index.EveryDocumentInTree | app.go:278-281 | every document of the source can be reached from the root by its path segments |
| Index.BuildTree | app.go:266-285 | a new tree named after the source, with its documents inserted in list order |
| Index.BuildDirectoryTrees | app.go:256-286 | one new tree per source in map order, each built from that source's documents, all distinct |
| Tree.FindChild | app.go:313-319 | the loop returns `Tree.Lookup`, the first child with the name |
| Tree.Lookup | app.go:313-319 | a child found is a later node than its parent and has the name sought |
| Tree.Resolve | app.go:311-338 | following segments by name from a node: the node reached, if every segment is found |
| Tree.InsertFrom | app.go:303-339 | reference definition of the segment loop from a node: existing children are followed, and missing ones are created and appended. The tree stays well formed and only grows |
| Tree.Insert | app.go:289-340 | insertion from the root; `Tree.InsertFrame`, `Tree.InsertResolves` and `Tree.InsertValid` state it |
| Tree.InsertFrame | app.go:289-340 | insertion only appends nodes and children, and gives the starting node at most one new child. New nodes are closed, carry their segment's name and the path so far, and are file leaves with the document iff they are for the last segment |
| Tree.InsertResolves | app.go:289-340 | after insertion the document's segments lead from the root to a node |
| Tree.InsertExisting | app.go:314-338 | inserting a document whose path already leads to a node changes nothing: the first document at a path keeps its leaf |
| Tree.ResolveStable | app.go:289-340 | a path that resolves still resolves to the same node after later insertions |
| Tree.AddChildDistinct | app.go:321-335 | appending a child whose name no sibling has keeps sibling names distinct |
| Tree.InsertDistinct | app.go:313-338 | insertion never creates two siblings of the same name |
| Tree.InsertValid | app.go:289-340 | insertion keeps a tree valid |
| Tree.PathOfJoin | app.go:304-308 | with no empty segment, a node's path is its segments joined by "/" |
| Tree.LeadingEmptySegment | app.go:297-308 | for any path whose first segment is empty, the labels are those of the remaining segments: "docs/a.md", not "/docs/a.md" |
| Tree.DirectoryTree.constructor | app.go:267-273 | a new tree holds only the open root named after the source |
| Tree.DirectoryTree.AddDocument | app.go:289-297 | the nodes become `Tree.Insert` of the old nodes with the document's segments (relative to the source, or its path when that fails), and the tree stays valid |
| Tree.DirectoryTree.InsertSegments | app.go:299-339 | the segment loop leaves exactly the nodes `Tree.Insert` describes |

## Left out

- I/O is oracles in `Platform.Env`: reading files, JSON decoding and encoding, the regex engine, `filepath` functions, `os.Stat`, `os.Getwd` and the cache write.
- Scan.ChildPath: the path of a walked entry is whatever the `join` oracle (filepath.Join) gives, so its cleaning is not computed. Under the default root "./", Go names a top-level folder "node_modules", not "./node_modules". Then the default patterns, which need a "/" before the folder name, do not ignore it. The model reproduces this only for an oracle that cleans as Go does.
- Go's `strings` functions work on UTF-8 bytes; the model works on sequences of characters, so byte offsets and invalid UTF-8 are not modelled.
- json.Unmarshal decodes into the existing Config, so fields missing from the file keep their old values, and a parse error may leave a partial update. The model treats a decoded file as a whole Config and a parse error as no change.
- The Document pointer that a tree leaf holds is a copy of the Document. The `*TreeNode` links are indices into a sequence of nodes. Aliasing between the tree and the list is not modelled.
- Go's map iteration order in GroupDocumentsByDirectory and BuildDirectoryTrees is an `order` parameter that lists each source name once.
- Lowercasing in search is ASCII-only; Unicode case folding is not modelled.
- HTTP routing, templates, markdown rendering, handleIndex, handleStatic, JSON responses and status codes are left out. Only the document list effects and the text passed to the renderer are modelled.
- Start is left out (port parsing, findAvailablePort, openBrowser, the server loop). So is the background goroutine that calls loadDocumentContents and its race with the handlers; the loader is modelled as a sequential step.
- main.go (flags, usage text, version printing, os.Exit) is not part of this model.
- Log messages and the "Loaded/Saved N documents" output are left out.
- Application.App.ProcessFile: the file name is the walk entry's name, which is what filepath.Base gives for the walked path.
- Application.App.LoadConfig: when the JSON does not decode, the config is stated as unchanged, not as partially updated.
