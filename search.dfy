/**
 * The search filter behind the search endpoint and the two first-match
 * look-ups over the document list: by RelPath (the document page) and by
 * absolute path (the page of a file named on the command line).
 */
module Search {
  import opened Wrappers
  import opened GoStrings
  import opened Models

  /** The query as the search handler uses it: trimmed, then lower-cased. */
  function NormalizeQuery(raw: string): string {
    ToLower(TrimSpace(raw))
  }

  /** A document matches when its lower-cased title, content or overview contains the query. */
  predicate Matches(d: Document, query: string) {
    Contains(ToLower(d.title), query) || Contains(ToLower(d.content), query) || Contains(ToLower(d.overview), query)
  }

  /** The matching documents, in list order. */
  function Filter(docs: seq<Document>, query: string): (r: seq<Document>)
    ensures |r| <= |docs|
    ensures forall d :: d in r ==> d in docs && Matches(d, query)
  {
    if docs == [] then []
    else
      var last := docs[|docs| - 1];
      var rest := Filter(docs[..|docs| - 1], query);
      if Matches(last, query) then rest + [last] else rest
  }

  /** What a search request answers: nothing for a blank query, the matching documents otherwise. */
  function SearchResults(docs: seq<Document>, raw: string): seq<Document> {
    var query := NormalizeQuery(raw);
    if query == "" then [] else Filter(docs, query)
  }

  /** The result loop of the search handler. */
  method FilterDocuments(docs: seq<Document>, query: string) returns (results: seq<Document>)
    ensures results == Filter(docs, query)
  {
    results := [];
    for i := 0 to |docs|
      invariant results == Filter(docs[..i], query)
    {
      assert docs[..i + 1][..i] == docs[..i];
      if Matches(docs[i], query) {
        results := results + [docs[i]];
      }
    }
    assert docs[..|docs|] == docs;
  }

  /** A document is a result exactly when it is in the list and matches. */
  lemma {:induction false} FilterMembership(docs: seq<Document>, query: string, d: Document)
    ensures d in Filter(docs, query) <==> d in docs && Matches(d, query)
  {
    if docs != [] {
      var init := docs[..|docs| - 1];
      FilterMembership(init, query, d);
      assert docs == init + [docs[|docs| - 1]];
    }
  }

  /** Filtering distributes over concatenation, so the results keep the list order. */
  lemma {:induction false} FilterAppend(a: seq<Document>, b: seq<Document>, query: string)
    ensures Filter(a + b, query) == Filter(a, query) + Filter(b, query)
    decreases |b|
  {
    if b == [] {
      assert a + b == a;
    } else {
      var init := b[..|b| - 1];
      assert (a + b)[..|a + b| - 1] == a + init;
      assert (a + b)[|a + b| - 1] == b[|b| - 1];
      FilterAppend(a, init, query);
    }
  }

  /** A document that does not match contributes nothing, one that matches contributes itself. */
  lemma FilterSingle(d: Document, query: string)
    ensures Filter([d], query) == if Matches(d, query) then [d] else []
  {
    assert [d][..0] == [];
  }

  /** A query that is empty or white space only finds nothing. */
  lemma BlankQueryFindsNothing(docs: seq<Document>, raw: string)
    requires AllSpace(raw)
    ensures SearchResults(docs, raw) == []
  {
    TrimSpaceEmpty(raw);
  }

  /**
   * Any other query finds exactly the documents that contain its trimmed,
   * lower-cased form in their lower-cased title, content or overview.
   */
  lemma QueryFindsMatches(docs: seq<Document>, raw: string, d: Document)
    requires !AllSpace(raw)
    ensures d in SearchResults(docs, raw) <==> d in docs && Matches(d, NormalizeQuery(raw))
  {
    TrimSpaceEmpty(raw);
    assert |NormalizeQuery(raw)| == |TrimSpace(raw)| > 0;
    FilterMembership(docs, NormalizeQuery(raw), d);
  }

  /** The document page's path: the URL path without its "/doc/" prefix. */
  function RequestedRelPath(urlPath: string): (r: string)
    ensures HasPrefix(urlPath, "/doc/") ==> urlPath == "/doc/" + r
    ensures !HasPrefix(urlPath, "/doc/") ==> r == urlPath
  {
    TrimPrefix(urlPath, "/doc/")
  }

  /** The index of the first document with the given RelPath, or -1. */
  function IndexOf(docs: seq<Document>, relPath: string): (r: int)
    ensures -1 <= r < |docs|
    ensures r == -1 <==> forall j :: 0 <= j < |docs| ==> docs[j].relPath != relPath
    ensures r >= 0 ==> docs[r].relPath == relPath && forall j :: 0 <= j < r ==> docs[j].relPath != relPath
  {
    if docs == [] then -1
    else if docs[0].relPath == relPath then 0
    else
      var r := IndexOf(docs[1..], relPath);
      if r == -1 then -1 else r + 1
  }

  /** The lookup loop of the document page. */
  method FindDocument(docs: seq<Document>, relPath: string) returns (index: int)
    ensures index == IndexOf(docs, relPath)
    ensures -1 <= index < |docs|
    ensures index == -1 <==> forall j :: 0 <= j < |docs| ==> docs[j].relPath != relPath
    ensures index >= 0 ==> docs[index].relPath == relPath
    ensures index >= 0 ==> forall j :: 0 <= j < index ==> docs[j].relPath != relPath
  {
    index := -1;
    for i := 0 to |docs|
      invariant forall j :: 0 <= j < i ==> docs[j].relPath != relPath
    {
      if docs[i].relPath == relPath {
        return i;
      }
    }
  }

  const FileNotFound := "file not found in documents"

  /**
   * The page URL of the file named on the command line: "/doc/" and the
   * RelPath of the first document whose path resolves to it; a document
   * whose path does not resolve is passed over.
   */
  method FileURL(docs: seq<Document>, abs: string -> Option<string>, targetFile: string)
    returns (url: Result<string, string>)
    ensures url.Failure? <==> forall j :: 0 <= j < |docs| ==> abs(docs[j].path) != Some(targetFile)
    ensures url.Failure? ==> url.error == FileNotFound
    ensures url.Success? ==> exists k :: 0 <= k < |docs| && abs(docs[k].path) == Some(targetFile)
                                      && url.value == "/doc/" + docs[k].relPath
                                      && forall j :: 0 <= j < k ==> abs(docs[j].path) != Some(targetFile)
  {
    for i := 0 to |docs|
      invariant forall j :: 0 <= j < i ==> abs(docs[j].path) != Some(targetFile)
    {
      var absDocPath := abs(docs[i].path);
      if absDocPath.None? {
        continue;
      }
      if absDocPath.value == targetFile {
        return Success("/doc/" + docs[i].relPath);
      }
    }
    return Failure(FileNotFound);
  }
}
