/**
 * The metadata cache: what is written to the cache file (every document
 * field except the content, plus the writer's version), what is read back
 * (documents whose content is "", the "not loaded yet" mark), and the lazy
 * loading that fills in the content of such documents later.
 */
module Cache {
  import opened Wrappers
  import opened Models

  /** A document as the cache stores it. */
  function ToCached(d: Document): CachedDocument {
    CachedDocument(d.title, d.path, d.relPath, d.dirName, d.sourceDir, d.sourceName, d.absPath, d.overview)
  }

  /** A cached entry read back: the content is not loaded. */
  function FromCached(c: CachedDocument): Document {
    Document(c.title, c.path, "", c.relPath, c.dirName, c.sourceDir, c.sourceName, c.absPath, c.overview)
  }

  /** What saving the cache writes for a document list. */
  function CacheOf(docs: seq<Document>, version: string): (data: CacheData)
    ensures data.version == version && |data.documents| == |docs|
    ensures forall i :: 0 <= i < |docs| ==> data.documents[i].path == docs[i].path && data.documents[i].relPath == docs[i].relPath
  {
    CacheData(seq(|docs|, i requires 0 <= i < |docs| => ToCached(docs[i])), version)
  }

  /** The document list a successful cache load installs. */
  function DocumentsOf(data: CacheData): (docs: seq<Document>)
    ensures |docs| == |data.documents|
    ensures forall i :: 0 <= i < |docs| ==> docs[i].content == "" && docs[i].path == data.documents[i].path
  {
    seq(|data.documents|, i requires 0 <= i < |data.documents| => FromCached(data.documents[i]))
  }

  /** The conversion loop of the cache writer, into an array of the list's length. */
  method SaveToCache(docs: seq<Document>, version: string) returns (data: CacheData)
    ensures data == CacheOf(docs, version)
  {
    var cachedDocs := new CachedDocument[|docs|];
    for i := 0 to |docs|
      invariant forall j :: 0 <= j < i ==> cachedDocs[j] == ToCached(docs[j])
    {
      cachedDocs[i] := ToCached(docs[i]);
    }
    data := CacheData(cachedDocs[..], version);
  }

  /** The conversion loop of the cache reader; the stored version is not looked at. */
  method LoadFromCache(data: CacheData) returns (docs: seq<Document>)
    ensures docs == DocumentsOf(data)
  {
    var loaded := new Document[|data.documents|];
    for i := 0 to |data.documents|
      invariant forall j :: 0 <= j < i ==> loaded[j] == FromCached(data.documents[j])
    {
      loaded[i] := FromCached(data.documents[i]);
    }
    docs := loaded[..];
  }

  /**
   * Saving and loading back gives the same documents in the same order, each
   * with every field but the content unchanged and the content empty.
   */
  lemma SaveThenLoad(docs: seq<Document>, version: string)
    ensures var loaded := DocumentsOf(CacheOf(docs, version));
            && |loaded| == |docs|
            && forall i :: 0 <= i < |docs| ==> loaded[i].content == "" && loaded[i].(content := docs[i].content) == docs[i]
  {
  }

  /** Loading and saving back writes the same entries. */
  lemma LoadThenSave(data: CacheData)
    ensures CacheOf(DocumentsOf(data), data.version) == data
  {
    var again := CacheOf(DocumentsOf(data), data.version);
    assert again.documents == data.documents;
  }

  /** The stored version plays no part in what is loaded. */
  lemma LoadIgnoresVersion(cached: seq<CachedDocument>, v1: string, v2: string)
    ensures DocumentsOf(CacheData(cached, v1)) == DocumentsOf(CacheData(cached, v2))
  {
  }

  // ---------------------------------------------------------------------
  // Lazy content loading
  // ---------------------------------------------------------------------

  /**
   * One document after the content loader has looked at it: read from its
   * path when its content is "" and the read succeeds, unchanged otherwise.
   */
  function Loaded(d: Document, readFile: string -> Option<string>): Document {
    if d.content == "" && readFile(d.path).Some? then d.(content := readFile(d.path).value) else d
  }

  /** The lazy loader over the whole list: every document loaded, in place. */
  function LoadedAll(docs: seq<Document>, readFile: string -> Option<string>): (r: seq<Document>)
    ensures |r| == |docs|
    ensures forall i :: 0 <= i < |docs| && docs[i].content != "" ==> r[i] == docs[i]
  {
    seq(|docs|, i requires 0 <= i < |docs| => Loaded(docs[i], readFile))
  }

  /**
   * Only a document whose content was "" and whose file could be read
   * changes, and only in its content, which becomes what was read.
   */
  lemma LoadChangesOnlyUnloaded(docs: seq<Document>, readFile: string -> Option<string>, i: nat)
    requires i < |docs|
    ensures var r := LoadedAll(docs, readFile);
            && |r| == |docs|
            && (docs[i].content != "" || readFile(docs[i].path).None? ==> r[i] == docs[i])
            && (docs[i].content == "" && readFile(docs[i].path).Some? ==>
                  r[i].(content := "") == docs[i] && r[i].content == readFile(docs[i].path).value)
  {
  }

  /** Loading twice loads nothing more: a file read as empty is read as empty again. */
  lemma LoadIdempotent(docs: seq<Document>, readFile: string -> Option<string>)
    ensures LoadedAll(LoadedAll(docs, readFile), readFile) == LoadedAll(docs, readFile)
  {
  }

  /**
   * When every file still holds the content it was scanned with, saving the
   * cache, loading it and loading the contents gives the scanned list back.
   */
  lemma CacheThenLoadRestores(docs: seq<Document>, version: string, readFile: string -> Option<string>)
    requires forall i :: 0 <= i < |docs| ==> readFile(docs[i].path) == Some(docs[i].content)
    ensures LoadedAll(DocumentsOf(CacheOf(docs, version)), readFile) == docs
  {
    var r := LoadedAll(DocumentsOf(CacheOf(docs, version)), readFile);
    forall i | 0 <= i < |docs| ensures r[i] == docs[i] {
      assert readFile(docs[i].path) == Some(docs[i].content);
    }
  }
}
