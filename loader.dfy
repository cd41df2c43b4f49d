/**
 * The evaluator's document loaders: local `.txt`/`.md` files found under a
 * directory, the Elasticsearch index behind a sequence of checks, and the
 * validation of the loaded list. The file system and the Elasticsearch
 * client are given as the results they produce.
 */
module Loader {
  import opened Wrappers
  import opened Text
  import opened Docs
  import opened PySeq

  // ---------------------------------------------------------------------
  // Local files

  /** The position of the last `.` in `s`, if any (`str.rfind`). */
  function LastDot(s: string): (i: Option<nat>)
    ensures i.Some? ==> i.value < |s| && s[i.value] == '.' && forall k :: i.value < k < |s| ==> s[k] != '.'
    ensures i.None? ==> forall k :: 0 <= k < |s| ==> s[k] != '.'
  {
    if s == [] then None
    else if s[|s| - 1] == '.' then Some(|s| - 1)
    else LastDot(s[..|s| - 1])
  }

  /** `PurePath(name).suffix`: from the last dot on, unless that dot is first or last. */
  function PathSuffix(name: string): string {
    match LastDot(name)
    case Some(i) => if 0 < i < |name| - 1 then name[i..] else ""
    case None => ""
  }

  /** `file_path.suffix.lower() in ['.txt', '.md']` */
  predicate Supported(name: string) {
    var ext := LowerAscii(PathSuffix(name));
    ext == ".txt" || ext == ".md"
  }

  /**
   * A name is supported exactly when it ends in `.txt` or `.md`, in any case,
   * after at least one other character.
   */
  lemma SupportedIff(name: string)
    ensures Supported(name) <==>
      (|name| >= 5 && LowerAscii(name[|name| - 4..]) == ".txt")
      || (|name| >= 4 && LowerAscii(name[|name| - 3..]) == ".md")
  {
    SuffixIs(name, ".txt");
    SuffixIs(name, ".md");
  }

  /**
   * The lowered suffix is `ext` (a dot and then no dot) exactly when the name
   * ends in `ext`, in any case, after at least one other character.
   */
  lemma SuffixIs(name: string, ext: string)
    requires |ext| >= 2 && ext[0] == '.' && forall k :: 1 <= k < |ext| ==> ext[k] != '.'
    ensures LowerAscii(PathSuffix(name)) == ext <==> |name| > |ext| && LowerAscii(name[|name| - |ext|..]) == ext
  {
    if LowerAscii(PathSuffix(name)) == ext {
      SuffixEnds(name, ext);
    }
    if |name| > |ext| && LowerAscii(name[|name| - |ext|..]) == ext {
      EndsSuffix(name, ext);
    }
  }

  /** A suffix is the end of the name after at least one other character. */
  lemma SuffixEnds(name: string, ext: string)
    requires |ext| >= 2 && LowerAscii(PathSuffix(name)) == ext
    ensures |name| > |ext| && PathSuffix(name) == name[|name| - |ext|..]
  {
    var suffix := PathSuffix(name);
    assert |suffix| == |ext|;
    var i := LastDot(name).value;
    assert suffix == name[i..];
  }

  /** An end of the name that lowers to `ext` starts at the last dot, so it is the suffix. */
  lemma EndsSuffix(name: string, ext: string)
    requires |ext| >= 2 && ext[0] == '.' && forall k :: 1 <= k < |ext| ==> ext[k] != '.'
    requires |name| > |ext| && LowerAscii(name[|name| - |ext|..]) == ext
    ensures PathSuffix(name) == name[|name| - |ext|..]
  {
    var n := |name|;
    var tail := name[n - |ext|..];
    forall k | 0 <= k < |tail| ensures (tail[k] == '.' <==> k == 0) {
      assert LowerAscii(tail)[k] == ext[k];
    }
    LastDotAt(name, n - |ext|);
  }

  /** A dot followed only by other characters is the last dot. */
  lemma {:induction false} LastDotAt(s: string, i: nat)
    requires i < |s| && s[i] == '.' && forall k :: i < k < |s| ==> s[k] != '.'
    ensures LastDot(s) == Some(i)
    decreases |s|
  {
    if i < |s| - 1 {
      var init := s[..|s| - 1];
      assert init[i] == '.';
      LastDotAt(init, i);
    }
  }

  /** An entry that `docs_dir.rglob('*')` yields. `read` is the file's text, or None when reading raised. */
  datatype Entry = Entry(name: string, path: string, read: Option<string>)

  /** The record of a supported file that could be read. */
  function EntryDocs(e: Entry): seq<Document> {
    if Supported(e.name) && e.read.Some? then
      [map["filename" := e.name, "content" := e.read.value, "path" := e.path]]
    else []
  }

  /** What `load_documents_local` returns: nothing without the directory, else the records in walk order. */
  function LocalDocuments(dirExists: bool, entries: seq<Entry>): seq<Document> {
    if dirExists then FlatMap(entries, EntryDocs) else []
  }

  /** `load_documents_local(documents_path)` */
  method LoadDocumentsLocal(dirExists: bool, entries: seq<Entry>) returns (documents: seq<Document>)
    ensures documents == LocalDocuments(dirExists, entries)
  {
    documents := [];
    if !dirExists {
      return [];
    }
    for i := 0 to |entries|
      invariant documents == FlatMap(entries[..i], EntryDocs)
    {
      var file := entries[i];
      FlatMapStep(entries, i);
      if Supported(file.name) {
        match file.read {
          case Some(content) =>
            documents := documents + [map["filename" := file.name, "content" := content, "path" := file.path]];
          case None =>
        }
      }
    }
    assert entries[..|entries|] == entries;
  }

  /** One more entry of the walk adds its records after the others. */
  lemma FlatMapStep(entries: seq<Entry>, i: nat)
    requires i < |entries|
    ensures FlatMap(entries[..i + 1], EntryDocs) == FlatMap(entries[..i], EntryDocs) + EntryDocs(entries[i])
  {
    assert entries[..i + 1][..i] == entries[..i];
  }

  /** The entry itself when it is a supported file that could be read. */
  function Loadable(e: Entry): seq<Entry> {
    if Supported(e.name) && e.read.Some? then [e] else []
  }

  /** A record of a supported, readable file: its name, text and path. */
  predicate FileRecord(d: Document, e: Entry) {
    Supported(e.name) && e.read.Some?
    && d == map["filename" := e.name, "content" := e.read.value, "path" := e.path]
  }

  /**
   * Every loaded record has `filename`, `content` and `path`, and comes from a
   * supported file that could be read; every such file gives one record.
   */
  lemma {:induction false} LocalDocumentsShape(entries: seq<Entry>)
    ensures var ds := FlatMap(entries, EntryDocs);
      && (forall j :: 0 <= j < |ds| ==> exists i :: 0 <= i < |entries| && FileRecord(ds[j], entries[i]))
      && |ds| == |FlatMap(entries, Loadable)|
    decreases |entries|
  {
    if entries != [] {
      var n := |entries| - 1;
      var init := entries[..n];
      LocalDocumentsShape(init);
      var ds := FlatMap(entries, EntryDocs);
      var before := FlatMap(init, EntryDocs);
      assert ds == before + EntryDocs(entries[n]);
      forall j | 0 <= j < |ds| ensures exists i :: 0 <= i < |entries| && FileRecord(ds[j], entries[i]) {
        if j < |before| {
          var i :| 0 <= i < |init| && FileRecord(before[j], init[i]);
          assert entries[i] == init[i];
        } else {
          assert FileRecord(ds[j], entries[n]);
        }
      }
    }
  }

  /** Every loaded record names a supported file. */
  lemma LocalDocumentsSupported(dirExists: bool, entries: seq<Entry>, j: nat)
    requires j < |LocalDocuments(dirExists, entries)|
    ensures var d := LocalDocuments(dirExists, entries)[j];
      "filename" in d && "content" in d && "path" in d && Supported(d["filename"])
  {
    LocalDocumentsShape(entries);
    var ds := FlatMap(entries, EntryDocs);
    var i :| 0 <= i < |entries| && FileRecord(ds[j], entries[i]);
    RecordFields(ds[j], entries[i]);
  }

  /** A file's record holds its name under `filename`, and has `content` and `path`. */
  lemma RecordFields(d: Document, e: Entry)
    requires FileRecord(d, e)
    ensures "filename" in d && "content" in d && "path" in d && d["filename"] == e.name
  {
    assert "filename" != "content" && "filename" != "path";
  }

  // ---------------------------------------------------------------------
  // Elasticsearch

  /**
   * What each step of `load_documents_elasticsearch` yields against the
   * server (Failure: the call raised): building the client, `ping()`,
   * `index_exists()`, `get_document_count()` and `get_all_documents()`.
   */
  datatype EsServer = EsServer(client: Result<(), string>, ping: Result<bool, string>,
                               indexExists: Result<bool, string>, count: Result<int, string>,
                               fetch: Result<seq<Document>, string>)

  /**
   * The documents `load_documents_elasticsearch` returns with its client, or
   * None for `(None, None)`: the first failing check, or any exception, ends it.
   */
  function EsDocuments(s: EsServer): Option<seq<Document>> {
    if s.client.Failure? then None
    else if s.ping != Success(true) then None
    else if s.indexExists != Success(true) then None
    else if s.count.Failure? || s.count.value == 0 then None
    else if s.fetch.Failure? || s.fetch.value == [] then None
    else Some(s.fetch.value)
  }

  /** Documents are returned exactly when every check passes, and they are the fetched ones, never none. */
  lemma EsDocumentsIff(s: EsServer)
    ensures EsDocuments(s).Some? <==>
      s.client.Success? && s.ping == Success(true) && s.indexExists == Success(true)
      && s.count.Success? && s.count.value != 0 && s.fetch.Success? && s.fetch.value != []
    ensures EsDocuments(s).Some? ==> EsDocuments(s).value == s.fetch.value && EsDocuments(s).value != []
  {
  }

  /**
   * The checks run in order: once one fails, what the later calls would have
   * returned makes no difference.
   */
  lemma EsCheckOrder(s: EsServer, indexExists: Result<bool, string>, count: Result<int, string>,
                     fetch: Result<seq<Document>, string>)
    ensures s.client.Failure? || s.ping != Success(true) ==>
      EsDocuments(s.(indexExists := indexExists, count := count, fetch := fetch)) == None
    ensures s.indexExists != Success(true) ==> EsDocuments(s.(count := count, fetch := fetch)) == None
    ensures s.count.Failure? || s.count == Success(0) ==> EsDocuments(s.(fetch := fetch)) == None
  {
  }

  // ---------------------------------------------------------------------
  // Validation

  /** A document with a `content` key whose text is not blank. */
  predicate HasContent(d: Document) {
    "content" in d && Strip(d["content"]) != []
  }

  /** What `validate_documents` answers. */
  predicate ValidDocuments(documents: seq<Document>) {
    documents != [] && forall i :: 0 <= i < |documents| ==> HasContent(documents[i])
  }

  /**
   * `validate_documents(documents)`. `failedAt` is the document the error
   * message names: checking stops at the first one without content.
   */
  method ValidateDocuments(documents: seq<Document>) returns (valid: bool, failedAt: Option<nat>)
    ensures valid <==> ValidDocuments(documents)
    ensures valid || documents == [] <==> failedAt.None?
    ensures failedAt.Some? ==> failedAt.value < |documents| && !HasContent(documents[failedAt.value])
                               && forall i :: 0 <= i < failedAt.value ==> HasContent(documents[i])
  {
    if documents == [] {
      return false, None;
    }
    for i := 0 to |documents|
      invariant forall k :: 0 <= k < i ==> HasContent(documents[k])
    {
      var doc := documents[i];
      if "content" !in doc {
        return false, Some(i);
      }
      if doc["content"] == [] || Strip(doc["content"]) == [] {
        return false, Some(i);
      }
    }
    return true, None;
  }

  /** An empty string strips to an empty string, so the `not doc['content']` test adds nothing. */
  lemma EmptyContentBlank(d: Document)
    requires "content" in d && d["content"] == []
    ensures !HasContent(d)
  {
  }
}
