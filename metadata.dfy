/**
 * Per-file metadata of a document, derived from its text and its place in
 * the source directory (app.go): the Overview paragraph, the title, the
 * DirName label, the displayed AbsPath, and the front-matter stripping done
 * before a document is rendered.  Each loop of the source is a method proved
 * against a function; the lemmas say what those functions promise.
 */
module Metadata {
  import opened GoStrings

  const OverviewHeading := "## Overview"
  const TitlePrefix := "# "
  const FrontmatterDelimiter := "---"

  /** Index of the first line that starts with `p`, or |lines| when none does. */
  function FirstWithPrefix(lines: seq<string>, p: string): (k: nat)
    ensures k <= |lines|
    ensures k < |lines| ==> HasPrefix(lines[k], p)
  {
    if lines == [] then 0
    else if HasPrefix(lines[0], p) then 0
    else 1 + FirstWithPrefix(lines[1..], p)
  }

  /** No line before the first one starting with `p` starts with `p`. */
  lemma {:induction false} BeforeFirst(lines: seq<string>, p: string, j: nat)
    requires j < FirstWithPrefix(lines, p)
    ensures !HasPrefix(lines[j], p)
  {
    if j > 0 {
      BeforeFirst(lines[1..], p, j - 1);
    }
  }

  /** FirstWithPrefix is the k that the lines before it and line k itself say it is. */
  lemma {:induction false} FirstIs(lines: seq<string>, p: string, k: nat)
    requires k <= |lines|
    requires forall j :: 0 <= j < k ==> !HasPrefix(lines[j], p)
    requires k < |lines| ==> HasPrefix(lines[k], p)
    ensures FirstWithPrefix(lines, p) == k
  {
    if k > 0 {
      assert !HasPrefix(lines[0], p);
      FirstIs(lines[1..], p, k - 1);
    }
  }

  /** The lines with their surrounding white space trimmed. */
  function TrimAll(lines: seq<string>): (ts: seq<string>)
    ensures |ts| == |lines|
  {
    if lines == [] then [] else [TrimSpace(lines[0])] + TrimAll(lines[1..])
  }

  /** Line k of the trimmed lines is line k trimmed. */
  lemma {:induction false} TrimAllAt(lines: seq<string>, k: nat)
    requires k < |lines|
    ensures TrimAll(lines)[k] == TrimSpace(lines[k])
  {
    if k > 0 {
      TrimAllAt(lines[1..], k - 1);
    }
  }

  // ---------------------------------------------------------------------
  // Overview paragraph (extractOverviewParagraph)
  // ---------------------------------------------------------------------

  /**
   * The lines of the Overview paragraph among the trimmed lines ts[i..] that
   * follow an Overview heading, `started` once a line has been collected.
   * Further Overview headings are passed over; blank lines are passed over
   * until something is collected; after that a blank or `#` line ends it.
   */
  function Paragraph(ts: seq<string>, i: nat, started: bool): seq<string>
    requires i <= |ts|
    decreases |ts| - i
  {
    if i == |ts| then []
    else if HasPrefix(ts[i], OverviewHeading) then Paragraph(ts, i + 1, started)
    else if ts[i] == "" && !started then Paragraph(ts, i + 1, started)
    else if (HasPrefix(ts[i], "#") || ts[i] == "") && started then []
    else [ts[i]] + Paragraph(ts, i + 1, true)
  }

  /** The Overview of a document: "" without a heading line. */
  function OverviewOf(content: string): string {
    var ts := TrimAll(Split(content, '\n'));
    var h := FirstWithPrefix(ts, OverviewHeading);
    if h == |ts| then "" else Join(Paragraph(ts, h + 1, false), " ")
  }

  method ExtractOverviewParagraph(content: string) returns (overview: string)
    ensures overview == OverviewOf(content)
  {
    var lines := Split(content, '\n');
    ghost var ts := TrimAll(lines);
    ghost var h := FirstWithPrefix(ts, OverviewHeading);
    var foundOverview := false;
    var paragraphLines: seq<string> := [];
    for i := 0 to |lines|
      invariant Scanned(ts, h, i, foundOverview, paragraphLines)
    {
      var trimmedLine := TrimSpace(lines[i]);
      TrimAllAt(lines, i);
      ghost var found0, para0 := foundOverview, paragraphLines;
      if HasPrefix(trimmedLine, OverviewHeading) {
        foundOverview := true;
      } else if foundOverview {
        if trimmedLine == "" && |paragraphLines| == 0 {
        } else if (HasPrefix(trimmedLine, "#") || trimmedLine == "") && |paragraphLines| > 0 {
          ScanStop(content, ts, h, i, paragraphLines);
          return Join(paragraphLines, " ");
        } else {
          paragraphLines := paragraphLines + [trimmedLine];
        }
      }
      ScanStep(ts, h, i, found0, para0, foundOverview, paragraphLines);
    }
    ScanEnd(content, ts, h, foundOverview, paragraphLines);
    overview := Join(paragraphLines, " ");
  }

  /**
   * The state of the scan after the trimmed lines ts[..i], where h is the
   * first heading: nothing before h; from h on, the lines collected so far
   * followed by the paragraph of the remaining lines make up the paragraph
   * after h.
   */
  ghost predicate Scanned(ts: seq<string>, h: nat, i: nat, found: bool, para: seq<string>)
  {
    && i <= |ts|
    && h == FirstWithPrefix(ts, OverviewHeading)
    && (!found ==> para == [] && h >= i)
    && (found ==> h < i && para + Paragraph(ts, i, para != []) == Paragraph(ts, h + 1, false))
  }

  /** The loop's step on the trimmed line t, when it does not end the paragraph. */
  ghost predicate Step(t: string, found: bool, para: seq<string>, found': bool, para': seq<string>) {
    if HasPrefix(t, OverviewHeading) then found' && para' == para
    else if !found then !found' && para' == para
    else if t == "" && para == [] then found' && para' == para
    else !((HasPrefix(t, "#") || t == "") && para != []) && found' && para' == para + [t]
  }

  /** A step that does not end the paragraph keeps the scan state. */
  lemma ScanStep(ts: seq<string>, h: nat, i: nat, found: bool, para: seq<string>, found': bool, para': seq<string>)
    requires i < |ts| && Scanned(ts, h, i, found, para)
    requires Step(ts[i], found, para, found', para')
    ensures Scanned(ts, h, i + 1, found', para')
  {
    if HasPrefix(ts[i], OverviewHeading) {
      ScanHeading(ts, h, i, found, para);
    } else if !found {
    } else if ts[i] == "" && para == [] {
      ParagraphSkip(ts, i, false);
    } else {
      ScanTake(ts, h, i, para);
    }
  }

  /** An Overview heading line: the first one starts the scan; later ones are passed over. */
  lemma ScanHeading(ts: seq<string>, h: nat, i: nat, found: bool, para: seq<string>)
    requires i < |ts| && Scanned(ts, h, i, found, para)
    requires HasPrefix(ts[i], OverviewHeading)
    ensures Scanned(ts, h, i + 1, true, para)
  {
    if i < h {
      BeforeFirst(ts, OverviewHeading, i);
    }
    if found {
      ParagraphSkip(ts, i, para != []);
    } else {
      assert [] + Paragraph(ts, h + 1, false) == Paragraph(ts, h + 1, false);
    }
  }

  /** A blank or `#` line after collected lines: what is collected is the Overview. */
  lemma ScanStop(content: string, ts: seq<string>, h: nat, i: nat, para: seq<string>)
    requires ts == TrimAll(Split(content, '\n'))
    requires i < |ts| && Scanned(ts, h, i, true, para)
    requires !HasPrefix(ts[i], OverviewHeading) && (HasPrefix(ts[i], "#") || ts[i] == "") && para != []
    ensures Join(para, " ") == OverviewOf(content)
  {
    ParagraphStop(ts, i);
    assert para + [] == para;
  }

  /** A line that is collected. */
  lemma ScanTake(ts: seq<string>, h: nat, i: nat, para: seq<string>)
    requires i < |ts| && Scanned(ts, h, i, true, para)
    requires !HasPrefix(ts[i], OverviewHeading) && ts[i] != ""
    requires para != [] ==> !HasPrefix(ts[i], "#")
    ensures Scanned(ts, h, i + 1, true, para + [ts[i]])
  {
    ParagraphTake(ts, i, para != []);
    assert para + ([ts[i]] + Paragraph(ts, i + 1, true)) == (para + [ts[i]]) + Paragraph(ts, i + 1, true);
  }

  /** At the end of the text, what is collected is the Overview. */
  lemma ScanEnd(content: string, ts: seq<string>, h: nat, found: bool, para: seq<string>)
    requires ts == TrimAll(Split(content, '\n'))
    requires Scanned(ts, h, |ts|, found, para)
    ensures Join(para, " ") == OverviewOf(content)
  {
    if found {
      ParagraphEnd(ts, para != []);
      assert para + [] == para;
    }
  }

  /** The steps of Paragraph: a heading, or a blank line before anything is collected, is passed over, ... */
  lemma ParagraphSkip(ts: seq<string>, i: nat, started: bool)
    requires i < |ts|
    requires HasPrefix(ts[i], OverviewHeading) || (ts[i] == "" && !started)
    ensures Paragraph(ts, i, started) == Paragraph(ts, i + 1, started)
  {
  }

  /** ... a blank or `#` line after collected lines ends the paragraph, ... */
  lemma ParagraphStop(ts: seq<string>, i: nat)
    requires i < |ts|
    requires !HasPrefix(ts[i], OverviewHeading) && (HasPrefix(ts[i], "#") || ts[i] == "")
    ensures Paragraph(ts, i, true) == []
  {
  }

  /** ... any other line is collected, ... */
  lemma ParagraphTake(ts: seq<string>, i: nat, started: bool)
    requires i < |ts|
    requires !HasPrefix(ts[i], OverviewHeading) && ts[i] != ""
    requires started ==> !HasPrefix(ts[i], "#")
    ensures Paragraph(ts, i, started) == [ts[i]] + Paragraph(ts, i + 1, true)
  {
  }

  /** ... and the paragraph ends with the text. */
  lemma ParagraphEnd(ts: seq<string>, started: bool)
    ensures Paragraph(ts, |ts|, started) == []
  {
  }

  /** Every collected line is one of the given lines, non-blank, and not an Overview heading. */
  lemma {:induction false} ParagraphLines(ts: seq<string>, i: nat, started: bool)
    requires i <= |ts|
    ensures forall l :: l in Paragraph(ts, i, started) ==> l in ts[i..] && l != "" && !HasPrefix(l, OverviewHeading)
    decreases |ts| - i
  {
    if i < |ts| {
      ParagraphLines(ts, i + 1, true);
      ParagraphLines(ts, i + 1, started);
    }
  }

  /**
   * Once collecting, a run of non-blank lines ts[i..j] that do not start with
   * `#` is taken whole, up to the end or to a blank or `#` line that is not
   * an Overview heading.
   */
  lemma {:induction false} ParagraphContinues(ts: seq<string>, i: nat, j: nat)
    requires i <= j <= |ts|
    requires forall k :: i <= k < j ==> ts[k] != "" && !HasPrefix(ts[k], "#")
    requires j == |ts| || ts[j] == "" || (HasPrefix(ts[j], "#") && !HasPrefix(ts[j], OverviewHeading))
    ensures Paragraph(ts, i, true) == ts[i..j]
    decreases j - i
  {
    if i < j {
      HeadingStartsWithHash(ts[i]);
      ParagraphContinues(ts, i + 1, j);
      assert ts[i..j] == [ts[i]] + ts[i + 1..j];
    }
  }

  /** An Overview heading is a `#` line. */
  lemma HeadingStartsWithHash(t: string)
    ensures HasPrefix(t, OverviewHeading) ==> HasPrefix(t, "#")
  {
    if HasPrefix(t, OverviewHeading) {
      assert t[..1] == t[..|OverviewHeading|][..1];
    }
  }

  /**
   * The paragraph after a heading: the lines ts[i..p] are blank lines or
   * repeated headings and are skipped, then the first content line ts[p] is
   * taken even if it starts with `#`, then the following plain lines, up to
   * the first blank or `#` line ts[j] that is not an Overview heading.
   */
  lemma {:induction false} ParagraphAfterBlanks(ts: seq<string>, i: nat, p: nat, j: nat)
    requires i <= p < j <= |ts|
    requires forall k :: i <= k < p ==> ts[k] == "" || HasPrefix(ts[k], OverviewHeading)
    requires ts[p] != "" && !HasPrefix(ts[p], OverviewHeading)
    requires forall k :: p < k < j ==> ts[k] != "" && !HasPrefix(ts[k], "#")
    requires j == |ts| || ts[j] == "" || (HasPrefix(ts[j], "#") && !HasPrefix(ts[j], OverviewHeading))
    ensures Paragraph(ts, i, false) == ts[p..j]
    decreases p - i
  {
    if i == p {
      ParagraphContinues(ts, p + 1, j);
      assert ts[p..j] == [ts[p]] + ts[p + 1..j];
    } else {
      ParagraphAfterBlanks(ts, i + 1, p, j);
    }
  }

  /**
   * The Overview of a text whose trimmed lines have their first Overview
   * heading at h, then blank lines or headings up to p, then the paragraph
   * ts[p..j] ending as above: those lines joined by single spaces.
   */
  lemma OverviewIsFirstParagraph(content: string, h: nat, p: nat, j: nat)
    requires var ts := TrimAll(Split(content, '\n'));
             && h < p < j <= |ts|
             && HasPrefix(ts[h], OverviewHeading)
             && (forall k :: 0 <= k < h ==> !HasPrefix(ts[k], OverviewHeading))
             && (forall k :: h < k < p ==> ts[k] == "" || HasPrefix(ts[k], OverviewHeading))
             && ts[p] != "" && !HasPrefix(ts[p], OverviewHeading)
             && (forall k :: p < k < j ==> ts[k] != "" && !HasPrefix(ts[k], "#"))
             && (j == |ts| || ts[j] == "" || (HasPrefix(ts[j], "#") && !HasPrefix(ts[j], OverviewHeading)))
    ensures OverviewOf(content) == Join(TrimAll(Split(content, '\n'))[p..j], " ")
  {
    var ts := TrimAll(Split(content, '\n'));
    FirstIs(ts, OverviewHeading, h);
    ParagraphAfterBlanks(ts, h + 1, p, j);
  }

  /** Without a line whose trimmed form starts with "## Overview" there is no Overview. */
  lemma OverviewAbsent(content: string)
    requires forall l :: l in Split(content, '\n') ==> !HasPrefix(TrimSpace(l), OverviewHeading)
    ensures OverviewOf(content) == ""
  {
    var lines := Split(content, '\n');
    var ts := TrimAll(lines);
    forall k | 0 <= k < |ts| ensures !HasPrefix(ts[k], OverviewHeading) {
      assert lines[k] in lines;
      TrimAllAt(lines, k);
    }
    FirstIs(ts, OverviewHeading, |ts|);
  }

  // ---------------------------------------------------------------------
  // Title (processFile)
  // ---------------------------------------------------------------------

  /**
   * The title the source computes: when the text contains "# " anywhere, the
   * rest of the first line that starts with "# " (untrimmed); otherwise, or
   * when no line starts so, the DirName.
   */
  function TitleOf(content: string, dirName: string): string {
    if Contains(content, TitlePrefix) then
      var lines := Split(content, '\n');
      var k := FirstWithPrefix(lines, TitlePrefix);
      if k < |lines| then TrimPrefix(lines[k], TitlePrefix) else dirName
    else dirName
  }

  method ExtractTitle(content: string, dirName: string) returns (title: string)
    ensures title == TitleOf(content, dirName)
  {
    title := dirName;
    if Contains(content, TitlePrefix) {
      var lines := Split(content, '\n');
      for i := 0 to |lines|
        invariant title == dirName
        invariant forall j :: 0 <= j < i ==> !HasPrefix(lines[j], TitlePrefix)
      {
        if HasPrefix(lines[i], TitlePrefix) {
          FirstIs(lines, TitlePrefix, i);
          return TrimPrefix(lines[i], TitlePrefix);
        }
      }
      FirstIs(lines, TitlePrefix, |lines|);
    }
  }

  /**
   * The "contains '# '" test in front of the line loop changes nothing: the
   * title is the remainder of the first line starting with "# ", a single
   * line, or the DirName when there is no such line.
   */
  lemma TitleFromFirstHeading(content: string, dirName: string)
    ensures var lines := Split(content, '\n');
            var k := FirstWithPrefix(lines, TitlePrefix);
            && (k < |lines| ==> lines[k] == TitlePrefix + TitleOf(content, dirName) && '\n' !in TitleOf(content, dirName))
            && (k == |lines| ==> TitleOf(content, dirName) == dirName)
  {
    var lines := Split(content, '\n');
    var k := FirstWithPrefix(lines, TitlePrefix);
    if k < |lines| {
      SplitJoin(content, '\n');
      SplitPieces(content, '\n');
      JoinHasPart(lines, "\n", k);
      assert OccursAt(lines[k], TitlePrefix, 0);
      ContainsTransitive(content, lines[k], TitlePrefix);
      var t := TitleOf(content, dirName);
      assert lines[k] == TitlePrefix + t;
      assert '\n' !in lines[k];
      forall j | 0 <= j < |t| ensures t[j] != '\n' {
        assert t[j] == lines[k][j + 2];
      }
    }
  }

  // ---------------------------------------------------------------------
  // DirName and AbsPath (processFile)
  // ---------------------------------------------------------------------

  /**
   * The DirName label of a file: its name alone when its directory relative
   * to the source root is "." or is literally "Root", and "dir/name" otherwise.
   */
  function DirNameOf(relDir: string, filename: string): (r: string)
    ensures HasSuffix(r, filename)
    ensures r == filename <==> (relDir == "." || relDir == "Root")
    ensures r != filename ==> r == relDir + "/" + filename
  {
    var dirName := if relDir == "." then "Root" else relDir;
    if dirName == "Root" then filename else dirName + "/" + filename
  }

  /** A file at the root and a file in a sub-directory named "Root" get the same label. */
  lemma RootDirectoryCollision(filename: string)
    ensures DirNameOf(".", filename) == DirNameOf("Root", filename) == filename
  {
  }

  /**
   * The AbsPath shown for a document: a directory above the working directory
   * ("../" first) loses exactly one "../" and is rooted at "/"; anything else,
   * bare ".." included, is shown as it is.
   */
  function DisplayAbsPath(relAbsDir: string): (r: string)
    ensures HasPrefix(relAbsDir, "../") ==> HasPrefix(r, "/") && "../" + r[1..] == relAbsDir
    ensures !HasPrefix(relAbsDir, "../") ==> r == relAbsDir
  {
    if HasPrefix(relAbsDir, "../") then "/" + TrimPrefix(relAbsDir, "../") else relAbsDir
  }

  /** Two levels up keeps the second "../": "../../foo" is shown as "/../foo". */
  lemma DisplayAbsPathTwoLevels()
    ensures DisplayAbsPath("../../foo") == "/../foo"
    ensures DisplayAbsPath("../foo") == "/foo"
    ensures DisplayAbsPath("..") == ".."
  {
    assert HasPrefix("../../foo", "../");
    assert HasPrefix("../foo", "../");
  }

  // ---------------------------------------------------------------------
  // Front matter (stripFrontmatter)
  // ---------------------------------------------------------------------

  /** Index of the first line at or after `from` that trims to "---", or |lines|. */
  function ClosingDelimiter(lines: seq<string>, from: nat): (k: nat)
    requires from <= |lines|
    ensures from <= k <= |lines|
    ensures forall j :: from <= j < k ==> TrimSpace(lines[j]) != FrontmatterDelimiter
    ensures k < |lines| ==> TrimSpace(lines[k]) == FrontmatterDelimiter
    decreases |lines| - from
  {
    if from == |lines| then from
    else if TrimSpace(lines[from]) == FrontmatterDelimiter then from
    else ClosingDelimiter(lines, from + 1)
  }

  predicate OpensFrontmatter(content: string) {
    HasPrefix(content, "---\n") || HasPrefix(content, "---\r\n")
  }

  /**
   * The text that is rendered: after the first line (past the opening one)
   * that trims to "---" when the text opens a front-matter block and splits
   * into at least three lines; the text itself otherwise.
   */
  function Stripped(content: string): string {
    if !OpensFrontmatter(content) then content
    else
      var lines := Split(content, '\n');
      if |lines| < 3 then content
      else
        var k := ClosingDelimiter(lines, 1);
        if k < |lines| then Join(lines[k + 1..], "\n") else content
  }

  method StripFrontmatter(content: string) returns (r: string)
    ensures r == Stripped(content)
  {
    if !HasPrefix(content, "---\n") && !HasPrefix(content, "---\r\n") {
      return content;
    }
    var lines := Split(content, '\n');
    if |lines| < 3 {
      return content;
    }
    for i := 1 to |lines|
      invariant forall j :: 1 <= j < i ==> TrimSpace(lines[j]) != FrontmatterDelimiter
    {
      var line := TrimSpace(lines[i]);
      if line == FrontmatterDelimiter {
        return Join(lines[i + 1..], "\n");
      }
    }
    return content;
  }

  /**
   * When front matter is removed, what is removed is the opening lines up to
   * and including the closing "---" line, and the result is exactly the text
   * after that line's newline.
   */
  lemma FrontmatterRemovedExactly(content: string)
    requires OpensFrontmatter(content)
    requires |Split(content, '\n')| >= 3
    requires ClosingDelimiter(Split(content, '\n'), 1) < |Split(content, '\n')|
    ensures var lines := Split(content, '\n');
            var k := ClosingDelimiter(lines, 1);
            && TrimSpace(lines[k]) == FrontmatterDelimiter
            && (k + 1 < |lines| ==> content == Join(lines[..k + 1], "\n") + "\n" + Stripped(content))
            && (k + 1 == |lines| ==> Stripped(content) == "")
  {
    var lines := Split(content, '\n');
    var k := ClosingDelimiter(lines, 1);
    assert Stripped(content) == Join(lines[k + 1..], "\n");
    if k + 1 < |lines| {
      var head, tail := lines[..k + 1], lines[k + 1..];
      assert lines == head + tail;
      SplitJoin(content, '\n');
      JoinAppend(head, tail, "\n");
      assert content == Join(head, "\n") + "\n" + Join(tail, "\n");
    }
  }
}
