/**
 * Ingestion: which files are picked up from the folders, how a file's text is
 * assembled from the extracted elements, and what is handed to the store.
 * Walking the folders and extracting text are oracles; files are processed one
 * after another in the order they were collected.
 */
module DocumentProcessor {
  import opened Wrappers
  import opened Text
  import opened LlmClient
  import opened VectorStore

  /** The extensions `_is_supported_file` accepts, compared after lower-casing. */
  const SupportedExtensions: seq<string> := [".pdf", ".docx", ".pptx", ".txt", ".eml", ".html", ".md", ".jpg", ".png"]

  /** `_is_supported_file`: `path.lower().endswith(extensions)`, one tuple entry after another. */
  predicate IsSupportedFile(path: Path) {
    exists k | 0 <= k < |SupportedExtensions| :: EndsWith(Lower(path), SupportedExtensions[k])
  }

  /**
   * On the raw path: it is supported exactly when it is at least as long as one
   * of the nine extensions and its last characters, each lower-cased, spell it.
   */
  lemma SupportedIffListedExtension(path: Path)
    ensures IsSupportedFile(path) <==>
      exists e | e in SupportedExtensions ::
        |e| <= |path| && forall i | 0 <= i < |e| :: LowerChar(path[|path| - |e| + i]) == e[i]
  {
    forall e | e in SupportedExtensions
      ensures EndsWith(Lower(path), e) <==>
        |e| <= |path| && forall i | 0 <= i < |e| :: LowerChar(path[|path| - |e| + i]) == e[i]
    {
      EndsWithLower(path, e);
    }
    if IsSupportedFile(path) {
      var k :| 0 <= k < |SupportedExtensions| && EndsWith(Lower(path), SupportedExtensions[k]);
      assert SupportedExtensions[k] in SupportedExtensions;
    }
  }

  /** The test ignores case: a path and its lower-cased form are treated alike. */
  lemma SupportIgnoresCase(path: Path)
    ensures IsSupportedFile(path) == IsSupportedFile(Lower(path))
  {
    LowerIdempotent(path);
  }

  /** An upper-case extension is accepted. */
  lemma UpperCaseExtensionAccepted()
    ensures IsSupportedFile("/docs/Report.PDF")
  {
    assert Lower("/docs/Report.PDF") == "/docs/report.pdf";
    assert EndsWith(Lower("/docs/Report.PDF"), SupportedExtensions[0]);
  }

  /** An extension that is followed by another one is not. */
  lemma InnerExtensionRejected()
    ensures !IsSupportedFile("report.pdf.bak")
  {
    assert Lower("report.pdf.bak") == "report.pdf.bak";
    assert forall k | 0 <= k < |SupportedExtensions| :: !EndsWith("report.pdf.bak", SupportedExtensions[k]);
  }

  // ---------------------------------------------------------------------------
  // Collecting files

  /** `os.walk` of one folder: the joined paths of the files beneath it, in walk order. */
  type Walk = Path -> seq<Path>

  /** The supported paths of a listing, in order. */
  function Supported(files: seq<Path>): (r: seq<Path>)
    ensures |r| <= |files|
    decreases |files|
  {
    if files == [] then []
    else
      var rest := Supported(files[..|files| - 1]);
      var last := files[|files| - 1];
      if IsSupportedFile(last) then rest + [last] else rest
  }

  lemma SupportedSnoc(files: seq<Path>, last: Path)
    ensures Supported(files + [last]) == if IsSupportedFile(last) then Supported(files) + [last] else Supported(files)
  {
    assert (files + [last])[..|files|] == files;
  }

  /**
   * Filtering a concatenation filters each part and keeps them in that order:
   * the order of the listing survives and a path listed twice is kept twice.
   */
  lemma {:induction false} SupportedAppend(a: seq<Path>, b: seq<Path>)
    ensures Supported(a + b) == Supported(a) + Supported(b)
    decreases |b|
  {
    if b == [] {
      assert a + b == a;
    } else {
      var b' := b[..|b| - 1];
      SupportedAppend(a, b');
      assert (a + b)[..|a + b| - 1] == a + b';
    }
  }

  /** A path is kept exactly when it is listed and supported. */
  lemma {:induction false} SupportedMembership(files: seq<Path>)
    ensures forall p :: p in Supported(files) <==> p in files && IsSupportedFile(p)
    decreases |files|
  {
    if files != [] {
      var init := files[..|files| - 1];
      SupportedMembership(init);
      assert files == init + [files[|files| - 1]];
    }
  }

  /** The `all_files` list of `process_folders`: the supported files of each folder in turn. */
  function Collect(folders: seq<Path>, walk: Walk): (all: seq<Path>)
    decreases |folders|
  {
    if folders == [] then []
    else Collect(folders[..|folders| - 1], walk) + Supported(walk(folders[|folders| - 1]))
  }

  /**
   * The collected paths are exactly the supported files found under one of
   * the folders.
   */
  lemma {:induction false} CollectedAreSupported(folders: seq<Path>, walk: Walk)
    ensures forall p :: p in Collect(folders, walk) <==>
      IsSupportedFile(p) && exists i | 0 <= i < |folders| :: p in walk(folders[i])
    decreases |folders|
  {
    if folders != [] {
      var n := |folders| - 1;
      CollectedAreSupported(folders[..n], walk);
      SupportedMembership(walk(folders[n]));
      forall p | IsSupportedFile(p) && (exists i | 0 <= i < |folders| :: p in walk(folders[i]))
        ensures p in Collect(folders, walk)
      {
        var i :| 0 <= i < |folders| && p in walk(folders[i]);
        if i < n {
          assert folders[..n][i] == folders[i];
        }
      }
    }
  }

  /**
   * Collecting is done folder by folder with no de-duplication, so folders
   * that overlap (or repeat) contribute their files once each.
   */
  lemma {:induction false} CollectAppend(a: seq<Path>, b: seq<Path>, walk: Walk)
    ensures Collect(a + b, walk) == Collect(a, walk) + Collect(b, walk)
    decreases |b|
  {
    if b == [] {
      assert a + b == a;
    } else {
      var b', last := b[..|b| - 1], b[|b| - 1];
      assert b == b' + [last];
      CollectAppend(a, b', walk);
      CollectAppendStep(a, b', last, walk);
    }
  }

  lemma CollectAppendStep(a: seq<Path>, b: seq<Path>, last: Path, walk: Walk)
    requires Collect(a + b, walk) == Collect(a, walk) + Collect(b, walk)
    ensures Collect(a + (b + [last]), walk) == Collect(a, walk) + Collect(b + [last], walk)
  {
    ConcatAssociative(a, b, [last]);
    CollectSnoc(a + b, last, walk);
    CollectSnoc(b, last, walk);
    ConcatAssociative(Collect(a, walk), Collect(b, walk), Supported(walk(last)));
  }

  lemma ConcatAssociative<T>(x: seq<T>, y: seq<T>, z: seq<T>)
    ensures (x + y) + z == x + (y + z)
  {
  }

  lemma CollectSnoc(folders: seq<Path>, last: Path, walk: Walk)
    ensures Collect(folders + [last], walk) == Collect(folders, walk) + Supported(walk(last))
  {
    assert (folders + [last])[..|folders|] == folders;
  }

  /** The collection loops of `process_folders`: each folder's walk in turn, keeping the supported files. */
  method CollectFiles(folders: seq<Path>, walk: Walk) returns (allFiles: seq<Path>)
    ensures allFiles == Collect(folders, walk)
  {
    allFiles := [];
    for i := 0 to |folders|
      invariant allFiles == Collect(folders[..i], walk)
    {
      var files := walk(folders[i]);
      for j := 0 to |files|
        invariant allFiles == Collect(folders[..i], walk) + Supported(files[..j])
      {
        assert files[..j + 1] == files[..j] + [files[j]];
        SupportedSnoc(files[..j], files[j]);
        if IsSupportedFile(files[j]) {
          allFiles := allFiles + [files[j]];
        }
      }
      assert files[..|files|] == files;
      assert folders[..i + 1] == folders[..i] + [folders[i]];
      CollectSnoc(folders[..i], folders[i], walk);
    }
    assert folders[..|folders|] == folders;
  }

  /** Listing the same folder twice counts its files twice. */
  lemma RepeatedFolderCountsTwice(folder: Path, walk: Walk)
    ensures |Collect([folder, folder], walk)| == 2 * |Supported(walk(folder))|
  {
    CollectAppend([folder], [folder], walk);
    assert [folder] + [folder] == [folder, folder];
    assert Collect([folder], walk) == Supported(walk(folder)) by {
      assert [folder][..0] == [];
    }
  }

  // ---------------------------------------------------------------------------
  // Text of one file

  /** What `partition` yields for a file: the elements' texts (None where an element has none), or a failure. */
  datatype Extraction = Elements(texts: seq<Option<string>>) | ExtractionRaised

  /** The texts that are not None, in element order. */
  function Present(texts: seq<Option<string>>): (r: seq<string>)
    ensures |r| <= |texts|
    ensures forall t :: t in r <==> Some(t) in texts
    decreases |texts|
  {
    if texts == [] then []
    else
      var init := texts[..|texts| - 1];
      assert texts == init + [texts[|texts| - 1]];
      var rest := Present(init);
      match texts[|texts| - 1]
      case None => rest
      case Some(t) => rest + [t]
  }

  /** Keeping the present texts distributes over concatenation of element lists. */
  lemma {:induction false} PresentAppend(a: seq<Option<string>>, b: seq<Option<string>>)
    ensures Present(a + b) == Present(a) + Present(b)
    decreases |b|
  {
    if b == [] {
      assert a + b == a;
    } else {
      var b' := b[..|b| - 1];
      PresentAppend(a, b');
      assert (a + b)[..|a + b| - 1] == a + b';
    }
  }

  /** `extract_text_sync`: the present texts joined with newlines. */
  function ExtractText(texts: seq<Option<string>>): string {
    Join(Present(texts), "\n")
  }

  /** An element without text adds nothing; one with text adds a newline (unless first) and the text. */
  lemma ExtractTextSnoc(texts: seq<Option<string>>, e: Option<string>)
    ensures e.None? ==> ExtractText(texts + [e]) == ExtractText(texts)
    ensures e.Some? ==>
              ExtractText(texts + [e]) == if Present(texts) == [] then e.value else ExtractText(texts) + "\n" + e.value
  {
    PresentAppend(texts, [e]);
    assert [e][..0] == [];
    if e.Some? {
      JoinSnoc(Present(texts), e.value, "\n");
    }
  }

  /** The metadata handed to the store for a file. */
  function MetadataFor(path: Path): Metadata {
    map["filename" := Basename(path), "path" := path]
  }

  /** `os.path.basename`: what follows the last '/'. */
  function Basename(path: Path): string
    decreases |path|
  {
    if path == [] then []
    else if path[|path| - 1] == '/' then []
    else Basename(path[..|path| - 1]) + [path[|path| - 1]]
  }

  /**
   * The base name is a suffix of the path without '/', preceded by a '/'
   * unless it is the whole path: the last component.
   */
  lemma {:induction false} BasenameIsLastComponent(path: Path)
    ensures var name := Basename(path);
      && |name| <= |path| && name == path[|path| - |name|..]
      && '/' !in name
      && (|name| < |path| ==> path[|path| - |name| - 1] == '/')
    decreases |path|
  {
    if path != [] && path[|path| - 1] != '/' {
      var init := path[..|path| - 1];
      BasenameIsLastComponent(init);
      var name := Basename(path);
      assert name == Basename(init) + [path[|path| - 1]];
      assert name == path[|path| - |name|..];
    }
  }

  /** The metadata has exactly the keys "filename" and "path", holding the base name and the path. */
  lemma MetadataForFields(path: Path)
    ensures MetadataFor(path).Keys == {"filename", "path"}
    ensures MetadataFor(path)["path"] == path && MetadataFor(path)["filename"] == Basename(path)
  {
    assert "filename" != "path" by { assert "filename"[0] != "path"[0]; }
  }

  // ---------------------------------------------------------------------------
  // Processing files

  /** Whether `_process_and_store` reaches `add_document` and the store accepts the file. */
  predicate Ingestible(extraction: Extraction, service: EmbeddingService) {
    extraction.Elements? && !IsBlank(ExtractText(extraction.texts))
    && GetEmbedding(ExtractText(extraction.texts), service).Vector?
  }

  /** `_process_and_store` for one file, as a store transition. */
  function ProcessOne(s: StoreState, path: Path, extraction: Extraction, service: EmbeddingService,
                      timestamp: string): StoreState
  {
    match extraction
    case ExtractionRaised => s
    case Elements(texts) =>
      var content := ExtractText(texts);
      if IsBlank(content) then s
      else AfterAdd(s, path, content, MetadataFor(path), service, timestamp).state
  }

  /** The files, processed in order; the i-th file gets the i-th timestamp. */
  function IngestAll(s: StoreState, files: seq<Path>, extract: Path -> Extraction,
                     service: EmbeddingService, clock: nat -> string): StoreState
    decreases |files|
  {
    if files == [] then s
    else
      var n := |files| - 1;
      ProcessOne(IngestAll(s, files[..n], extract, service, clock), files[n], extract(files[n]), service, clock(n))
  }

  /** How many of the files end up in the store. */
  function CountIngestible(files: seq<Path>, extract: Path -> Extraction, service: EmbeddingService): (n: nat)
    ensures n <= |files|
    decreases |files|
  {
    if files == [] then 0
    else
      var last := files[|files| - 1];
      CountIngestible(files[..|files| - 1], extract, service) + (if Ingestible(extract(last), service) then 1 else 0)
  }

  /** The files that end up in the store, in processing order. */
  function IngestibleFiles(files: seq<Path>, extract: Path -> Extraction, service: EmbeddingService): (r: seq<Path>)
    ensures |r| == CountIngestible(files, extract, service)
    ensures forall p | p in r :: p in files
    decreases |files|
  {
    if files == [] then []
    else
      var last := files[|files| - 1];
      var rest := IngestibleFiles(files[..|files| - 1], extract, service);
      if Ingestible(extract(last), service) then rest + [last] else rest
  }

  /** A path is listed exactly when it is in the batch and yields a record. */
  lemma {:induction false} IngestibleFilesMembership(files: seq<Path>, extract: Path -> Extraction,
                                                     service: EmbeddingService)
    ensures forall p :: p in IngestibleFiles(files, extract, service) <==>
                        p in files && Ingestible(extract(p), service)
    decreases |files|
  {
    if files != [] {
      var init := files[..|files| - 1];
      IngestibleFilesMembership(init, extract, service);
      assert files == init + [files[|files| - 1]];
    }
  }

  /**
   * Listing a concatenated batch lists each part, in order: batch order is kept
   * and a path that occurs twice and yields a record is listed twice.
   */
  lemma {:induction false} IngestibleFilesAppend(a: seq<Path>, b: seq<Path>, extract: Path -> Extraction,
                                                 service: EmbeddingService)
    ensures IngestibleFiles(a + b, extract, service)
         == IngestibleFiles(a, extract, service) + IngestibleFiles(b, extract, service)
    decreases |b|
  {
    if b == [] {
      assert a + b == a;
    } else {
      var b' := b[..|b| - 1];
      IngestibleFilesAppend(a, b', extract, service);
      assert (a + b)[..|a + b| - 1] == a + b';
    }
  }

  /**
   * One file on a consistent store: a failed extraction or blank text leaves the
   * store alone, and otherwise the file is added (when its embedding is a list)
   * with the metadata `{filename, path}` and its text.
   */
  lemma ProcessOneEffect(s: StoreState, path: Path, extraction: Extraction, service: EmbeddingService,
                         timestamp: string)
    requires Consistent(s)
    ensures var t := ProcessOne(s, path, extraction, service, timestamp);
      && Consistent(t)
      && (Ingestible(extraction, service) ==>
            && t.docCount == s.docCount + 1
            && t.documents == s.documents[s.docCount := Document(path, MetadataFor(path),
                 Slice(ExtractText(extraction.texts), SnippetLength), timestamp)])
      && (!Ingestible(extraction, service) ==>
            t.index == s.index && t.documents == s.documents && t.docCount == s.docCount)
  {
    if extraction.Elements? && !IsBlank(ExtractText(extraction.texts)) {
      var content := ExtractText(extraction.texts);
      var r := AfterAdd(s, path, content, MetadataFor(path), service, timestamp);
      assert ProcessOne(s, path, extraction, service, timestamp) == r.state;
      if GetEmbedding(content, service).Vector? {
        AddDocumentAppends(s, path, content, MetadataFor(path), service, timestamp);
      } else {
        AddDocumentRejectsNonVector(s, path, content, MetadataFor(path), service, timestamp);
      }
    }
  }

  /**
   * `t` keeps every document of `s` as it was, and every document it has
   * beyond those is one of `files`, with that file's metadata.
   */
  ghost predicate KeepsAndAddsFrom(s: StoreState, t: StoreState, files: seq<Path>)
    requires Consistent(s) && Consistent(t)
  {
    && s.docCount <= t.docCount
    && (forall id | 0 <= id < s.docCount :: t.documents[id] == s.documents[id])
    && (forall id | s.docCount <= id < t.docCount ::
          t.documents[id].filePath in files && t.documents[id].metadata == MetadataFor(t.documents[id].filePath))
  }

  /**
   * `t` keeps every document of `s` as it was, and its documents beyond those
   * are one per path of `added`, in order, each with that path's metadata.
   */
  ghost predicate AddsInOrder(s: StoreState, t: StoreState, added: seq<Path>)
    requires Consistent(s) && Consistent(t)
  {
    && t.docCount == s.docCount + |added|
    && (forall id | 0 <= id < s.docCount :: t.documents[id] == s.documents[id])
    && forall k | 0 <= k < |added| ::
         && t.documents[s.docCount + k].filePath == added[k]
         && t.documents[s.docCount + k].metadata == MetadataFor(added[k])
  }

  /** One more file on top of a batch that added `added` in order. */
  lemma AddsInOrderStep(s: StoreState, mid: StoreState, added: seq<Path>, last: Path, e: Extraction,
                        service: EmbeddingService, timestamp: string)
    requires Consistent(s) && Consistent(mid) && AddsInOrder(s, mid, added)
    ensures var t := ProcessOne(mid, last, e, service, timestamp);
      && Consistent(t)
      && AddsInOrder(s, t, if Ingestible(e, service) then added + [last] else added)
  {
    var t := ProcessOne(mid, last, e, service, timestamp);
    ProcessOneEffect(mid, last, e, service, timestamp);
    if Ingestible(e, service) {
      AppendedInOrder(s, mid, t, added, Document(last, MetadataFor(last), Slice(ExtractText(e.texts), SnippetLength), timestamp));
    }
  }

  /** Appending one record for a path, under the next id, extends the in-order additions by that path. */
  lemma AppendedInOrder(s: StoreState, mid: StoreState, t: StoreState, added: seq<Path>, doc: Document)
    requires Consistent(s) && Consistent(mid) && Consistent(t) && AddsInOrder(s, mid, added)
    requires doc.metadata == MetadataFor(doc.filePath)
    requires t.docCount == mid.docCount + 1 && t.documents == mid.documents[mid.docCount := doc]
    ensures AddsInOrder(s, t, added + [doc.filePath])
  {
    forall id | 0 <= id < s.docCount
      ensures t.documents[id] == s.documents[id]
    {
      assert id != mid.docCount;
    }
    var next := added + [doc.filePath];
    forall k | 0 <= k < |next|
      ensures t.documents[s.docCount + k].filePath == next[k]
      ensures t.documents[s.docCount + k].metadata == MetadataFor(next[k])
    {
      if k < |added| {
        assert s.docCount + k != mid.docCount;
        assert next[k] == added[k];
      } else {
        assert s.docCount + k == mid.docCount;
      }
    }
  }

  /**
   * Ingesting a batch appends one document per ingestible file, in the order
   * of the files, each carrying that file's path and metadata.
   */
  lemma {:induction false} IngestAllAddsInOrder(s: StoreState, files: seq<Path>, extract: Path -> Extraction,
                                                service: EmbeddingService, clock: nat -> string)
    requires Consistent(s)
    ensures var t := IngestAll(s, files, extract, service, clock);
      Consistent(t) && AddsInOrder(s, t, IngestibleFiles(files, extract, service))
    decreases |files|
  {
    if files != [] {
      var n := |files| - 1;
      var init := files[..n];
      IngestAllAddsInOrder(s, init, extract, service, clock);
      AddsInOrderStep(s, IngestAll(s, init, extract, service, clock), IngestibleFiles(init, extract, service),
                      files[n], extract(files[n]), service, clock(n));
    }
  }

  /**
   * Ingesting a batch into a consistent store keeps it consistent, never touches
   * the documents already there, and adds exactly one document per ingestible
   * file, in the order of the batch, each with its file's metadata.
   */
  lemma IngestAllEffect(s: StoreState, files: seq<Path>, extract: Path -> Extraction,
                        service: EmbeddingService, clock: nat -> string)
    requires Consistent(s)
    ensures var t := IngestAll(s, files, extract, service, clock);
      && Consistent(t)
      && t.docCount == s.docCount + CountIngestible(files, extract, service)
      && KeepsAndAddsFrom(s, t, files)
      && AddsInOrder(s, t, IngestibleFiles(files, extract, service))
  {
    IngestAllAddsInOrder(s, files, extract, service, clock);
    InOrderKeepsAndAdds(s, IngestAll(s, files, extract, service, clock), files,
                        IngestibleFiles(files, extract, service));
  }

  /** Adding, in order, paths all drawn from `files` is a case of keeping and adding from `files`. */
  lemma InOrderKeepsAndAdds(s: StoreState, t: StoreState, files: seq<Path>, added: seq<Path>)
    requires Consistent(s) && Consistent(t) && AddsInOrder(s, t, added)
    requires forall p | p in added :: p in files
    ensures KeepsAndAddsFrom(s, t, files)
  {
    forall id | s.docCount <= id < t.docCount
      ensures t.documents[id].filePath in files
      ensures t.documents[id].metadata == MetadataFor(t.documents[id].filePath)
    {
      var k := id - s.docCount;
      assert t.documents[s.docCount + k].filePath == added[k];
      assert added[k] in added;
    }
  }

  /** The count `process_folders` reports is never smaller than the number of documents it added. */
  lemma ReportedCountBoundsInsertions(s: StoreState, folders: seq<Path>, walk: Walk, extract: Path -> Extraction,
                                      service: EmbeddingService, clock: nat -> string)
    requires Consistent(s)
    ensures var files := Collect(folders, walk);
      IngestAll(s, files, extract, service, clock).docCount - s.docCount <= |files|
  {
    IngestAllEffect(s, Collect(folders, walk), extract, service, clock);
  }

  /** `DocumentProcessor`: the ingestion front end of one store. */
  class Processor {
    const store: Store

    constructor (store: Store)
      ensures this.store == store
    {
      this.store := store;
    }

    /**
     * `process_folders`: collect the supported files of every folder, process
     * each, and report how many were collected (not how many were added).
     */
    method ProcessFolders(folders: seq<Path>, walk: Walk, extract: Path -> Extraction,
                          service: EmbeddingService, clock: nat -> string)
      returns (count: nat)
      modifies store
      ensures count == |Collect(folders, walk)|
      ensures store.State() == IngestAll(old(store.State()), Collect(folders, walk), extract, service, clock)
    {
      var allFiles := CollectFiles(folders, walk);
      for k := 0 to |allFiles|
        invariant store.State() == IngestAll(old(store.State()), allFiles[..k], extract, service, clock)
      {
        assert allFiles[..k + 1][..k] == allFiles[..k];
        ProcessAndStore(allFiles[k], extract, service, clock(k));
      }
      assert allFiles[..|allFiles|] == allFiles;
      count := |allFiles|;
    }

    /** `_process_and_store`: skip failed or blank extractions, otherwise hand the text to the store. */
    method ProcessAndStore(path: Path, extract: Path -> Extraction, service: EmbeddingService, timestamp: string)
      modifies store
      ensures store.State() == ProcessOne(old(store.State()), path, extract(path), service, timestamp)
    {
      var extraction := extract(path);
      if extraction.ExtractionRaised? {
        return;
      }
      var content := ExtractText(extraction.texts);
      if IsBlank(content) {
        return;
      }
      var metadata := MetadataFor(path);
      var added := store.AddDocument(path, content, metadata, service, timestamp);
    }
  }
}
