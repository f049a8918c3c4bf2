/**
 * The HTTP decision layer of the backend (`backend/app.py`): indexing folders,
 * the search guard and result enrichment, and related-document lookup, over the
 * global `indexed_folders` list and one store.
 */
module App {
  import opened Wrappers
  import opened Text
  import opened LlmClient
  import opened VectorStore
  import opened DocumentProcessor

  // ---------------------------------------------------------------------------
  // Outcomes

  /** Where a request stops short of success. */
  datatype Failure =
    | NoFoldersProvided
    | InvalidFolders(folders: seq<Path>)
    | NoFoldersIndexed
    | FileNotFound
    | RelatedFailed

  /** The HTTP status each failure is answered with. */
  function StatusCode(f: Failure): int {
    match f
    case NoFoldersProvided => 400
    case InvalidFolders(_) => 400
    case NoFoldersIndexed => 400
    case FileNotFound => 404
    case RelatedFailed => 500
  }

  datatype Outcome<T> = Success(value: T) | Failed(failure: Failure)

  /** A search or related result as returned to the client: the hit and its mini summary. */
  datatype Entry = Entry(filePath: Path, score: real, summary: string, snippet: string, metadata: Metadata)

  const SearchSummaryLength := 150
  const RelatedSummaryLength := 100

  // ---------------------------------------------------------------------------
  // index_folders

  /** The folders of a request that are not directories, in request order. */
  function NotDirectories(folders: seq<Path>, dirs: set<Path>): (invalid: seq<Path>)
    ensures |invalid| <= |folders|
    ensures forall f :: f in invalid <==> f in folders && f !in dirs
    ensures invalid == [] <==> forall f | f in folders :: f in dirs
    decreases |folders|
  {
    if folders == [] then []
    else
      var init := folders[..|folders| - 1];
      var last := folders[|folders| - 1];
      assert folders == init + [last];
      var rest := NotDirectories(init, dirs);
      if last in dirs then rest else rest + [last]
  }

  /** `set(folders)`. */
  function FolderSet(folders: seq<Path>): set<Path> {
    set f | f in folders
  }

  /** The condition under which `index_folders` resets the store. */
  predicate FolderSetChanged(indexed: seq<Path>, requested: seq<Path>) {
    FolderSet(indexed) != FolderSet(requested)
  }

  /** The reset depends only on which folders are named, not on their order or repetition. */
  lemma ResetIffFolderSetDiffers(indexed: seq<Path>, requested: seq<Path>)
    ensures !FolderSetChanged(indexed, requested) <==> forall f :: f in indexed <==> f in requested
  {
    if forall f :: f in indexed <==> f in requested {
      assert FolderSet(indexed) == FolderSet(requested);
    } else {
      var f :| !(f in indexed <==> f in requested);
      assert f in FolderSet(indexed) <==> f in indexed;
      assert f in FolderSet(requested) <==> f in requested;
    }
  }

  /** What the backend keeps between requests: the global folder list and the store. */
  datatype BackendState = BackendState(indexedFolders: seq<Path>, store: StoreState)

  /** `index_folders` as a transition: its outcome and the new backend state. */
  function AfterIndex(b: BackendState, folders: seq<Path>, dirs: set<Path>, walk: Walk,
                      extract: Path -> Extraction, service: EmbeddingService, clock: nat -> string)
    : (Outcome<nat>, BackendState)
  {
    if folders == [] then (Failed(NoFoldersProvided), b)
    else
      var invalid := NotDirectories(folders, dirs);
      if invalid != [] then (Failed(InvalidFolders(invalid)), b)
      else
        var s := if FolderSetChanged(b.indexedFolders, folders) then AfterReset(b.store) else b.store;
        var files := Collect(folders, walk);
        (Success(|files|), BackendState(folders, IngestAll(s, files, extract, service, clock)))
  }

  /**
   * An empty list and a list naming a non-directory are refused with 400 and
   * change nothing; the refusal lists exactly the offending folders. Any other
   * request succeeds, reporting the number of collected files and recording
   * the requested list.
   */
  lemma IndexOutcomes(b: BackendState, folders: seq<Path>, dirs: set<Path>, walk: Walk,
                      extract: Path -> Extraction, service: EmbeddingService, clock: nat -> string)
    ensures var (o, b') := AfterIndex(b, folders, dirs, walk, extract, service, clock);
      && (folders == [] ==> o == Failed(NoFoldersProvided))
      && (folders != [] && (exists f :: f in folders && f !in dirs) ==>
            && o.Failed? && o.failure.InvalidFolders? && o.failure.folders != []
            && (forall f :: f in o.failure.folders <==> f in folders && f !in dirs))
      && (o.Failed? ==> b' == b && StatusCode(o.failure) == 400)
      && (o.Success? <==> folders != [] && forall f | f in folders :: f in dirs)
      && (o.Success? ==> o.value == |Collect(folders, walk)| && b'.indexedFolders == folders)
  {
    if folders != [] {
      var invalid := NotDirectories(folders, dirs);
      if exists f :: f in folders && f !in dirs {
        var f :| f in folders && f !in dirs;
        assert f in invalid;
      } else {
        assert forall f | f in folders :: f in dirs;
      }
    }
  }

  /**
   * Re-indexing with a different folder set starts from an empty store: afterwards
   * every stored document is one of the newly collected files, with its metadata,
   * and the store holds exactly one document per ingestible file, in collection order.
   */
  lemma ChangedFoldersHoldOnlyNewFiles(b: BackendState, folders: seq<Path>, dirs: set<Path>, walk: Walk,
                                       extract: Path -> Extraction, service: EmbeddingService,
                                       clock: nat -> string)
    requires folders != [] && forall f | f in folders :: f in dirs
    requires FolderSetChanged(b.indexedFolders, folders)
    ensures var t := AfterIndex(b, folders, dirs, walk, extract, service, clock).1.store;
      var files := Collect(folders, walk);
      var ingested := IngestibleFiles(files, extract, service);
      && Consistent(t)
      && t.docCount == CountIngestible(files, extract, service)
      && (forall id | id in t.documents ::
            t.documents[id].filePath in files && t.documents[id].metadata == MetadataFor(t.documents[id].filePath))
      && (forall k | 0 <= k < |ingested| :: t.documents[k].filePath == ingested[k])
  {
    IndexOutcomes(b, folders, dirs, walk, extract, service, clock);
    var files := Collect(folders, walk);
    var s := AfterReset(b.store);
    ResetIsFreshAndIdempotent(b.store);
    IngestAllEffect(s, files, extract, service, clock);
    var t := IngestAll(s, files, extract, service, clock);
    assert AfterIndex(b, folders, dirs, walk, extract, service, clock).1.store == t;
  }

  /**
   * Re-indexing the same folder set keeps every document already stored and
   * adds the ingestible collected files again after them, in collection order:
   * nothing removes the earlier copies.
   */
  lemma SameFoldersKeepAndAccumulate(b: BackendState, folders: seq<Path>, dirs: set<Path>, walk: Walk,
                                     extract: Path -> Extraction, service: EmbeddingService,
                                     clock: nat -> string)
    requires Consistent(b.store)
    requires folders != [] && forall f | f in folders :: f in dirs
    requires !FolderSetChanged(b.indexedFolders, folders)
    ensures var t := AfterIndex(b, folders, dirs, walk, extract, service, clock).1.store;
      var files := Collect(folders, walk);
      var ingested := IngestibleFiles(files, extract, service);
      && Consistent(t)
      && t.docCount == b.store.docCount + CountIngestible(files, extract, service)
      && (forall id | id in b.store.documents :: id in t.documents && t.documents[id] == b.store.documents[id])
      && (forall k | 0 <= k < |ingested| :: t.documents[b.store.docCount + k].filePath == ingested[k])
  {
    IndexOutcomes(b, folders, dirs, walk, extract, service, clock);
    var files := Collect(folders, walk);
    IngestAllEffect(b.store, files, extract, service, clock);
    var t := IngestAll(b.store, files, extract, service, clock);
    KeptThenAppended(b.store, t, IngestibleFiles(files, extract, service));
    assert AfterIndex(b, folders, dirs, walk, extract, service, clock).1.store == t;
  }

  lemma KeptThenAppended(s: StoreState, t: StoreState, added: seq<Path>)
    requires Consistent(s) && Consistent(t) && AddsInOrder(s, t, added)
    ensures forall id | id in s.documents :: id in t.documents && t.documents[id] == s.documents[id]
    ensures forall k | 0 <= k < |added| :: t.documents[s.docCount + k].filePath == added[k]
  {
  }

  // ---------------------------------------------------------------------------
  // Enriching hits with summaries

  /** A hit with its mini summary attached; every other field is the hit's own. */
  function WithSummary(h: Hit, queryContext: Option<string>, maxLength: int, generate: GenerateService): Entry {
    Entry(h.filePath, h.score, GenerateSummary(h.filePath, h.snippet, queryContext, maxLength, generate),
          h.snippet, h.metadata)
  }

  function Summarised(hits: seq<Hit>, queryContext: Option<string>, maxLength: int,
                      generate: GenerateService): seq<Entry>
  {
    seq(|hits|, i requires 0 <= i < |hits| => WithSummary(hits[i], queryContext, maxLength, generate))
  }

  /**
   * Attaching summaries keeps the hits, in order, with their path, score,
   * snippet and metadata; each summary fits `maxLength` (for `maxLength >= 3`)
   * or is one of the fixed failure messages.
   */
  lemma SummarisedKeepsHits(hits: seq<Hit>, queryContext: Option<string>, maxLength: int,
                            generate: GenerateService, i: int)
    requires 0 <= i < |hits|
    requires maxLength >= 3
    ensures var e := Summarised(hits, queryContext, maxLength, generate)[i];
      && |Summarised(hits, queryContext, maxLength, generate)| == |hits|
      && e.filePath == hits[i].filePath && e.score == hits[i].score
      && e.snippet == hits[i].snippet && e.metadata == hits[i].metadata
      && (|e.summary| <= maxLength || e.summary in {SummaryFailedMessage, SummaryErrorMessage})
  {
    SummaryFitsOrFails(hits[i].filePath, hits[i].snippet, queryContext, maxLength, generate);
  }

  // ---------------------------------------------------------------------------
  // get_related

  /** A content search: the text and how many candidates to return. */
  type ContentSearch = (string, int) -> seq<Hit>

  /** The candidates whose path is not the given one, in candidate order. */
  function Without(hits: seq<Hit>, path: Path): (r: seq<Hit>)
    ensures |r| <= |hits|
    decreases |hits|
  {
    if hits == [] then []
    else
      var rest := Without(hits[..|hits| - 1], path);
      var last := hits[|hits| - 1];
      if last.filePath == path then rest else rest + [last]
  }

  /** The filtered candidates are exactly those whose path is not the given one. */
  lemma {:induction false} WithoutMembership(hits: seq<Hit>, path: Path)
    ensures forall h :: h in Without(hits, path) <==> h in hits && h.filePath != path
    decreases |hits|
  {
    if hits != [] {
      var init := hits[..|hits| - 1];
      WithoutMembership(init, path);
      assert hits == init + [hits[|hits| - 1]];
    }
  }

  /** Filtering distributes over concatenation, so it never reorders the candidates. */
  lemma {:induction false} WithoutAppend(a: seq<Hit>, b: seq<Hit>, path: Path)
    ensures Without(a + b, path) == Without(a, path) + Without(b, path)
    decreases |b|
  {
    if b == [] {
      assert a + b == a;
    } else {
      var b' := b[..|b| - 1];
      WithoutAppend(a, b', path);
      assert (a + b)[..|a + b| - 1] == a + b';
    }
  }

  /**
   * `get_related`, given what the store offers under the name `search_by_content`:
   * nothing (the attribute lookup raises and the handler answers 500) or a search.
   */
  function Related(filePath: Path, limit: int, files: set<Path>, extract: Path -> Extraction,
                   searchByContent: Option<ContentSearch>, generate: GenerateService): Outcome<seq<Entry>>
  {
    if filePath !in files then Failed(FileNotFound)
    else match extract(filePath)
      case ExtractionRaised => Failed(RelatedFailed)
      case Elements(texts) =>
        match searchByContent
        case None => Failed(RelatedFailed)
        case Some(search) =>
          var candidates := search(ExtractText(texts), limit + 1);
          Success(Summarised(Slice(Without(candidates, filePath), limit), None, RelatedSummaryLength, generate))
  }

  /**
   * As written, `VectorStore` defines no `search_by_content`, so every request
   * for an existing file ends in 500 and none for a missing file gets past 404.
   */
  lemma RelatedAsWrittenNeverSucceeds(filePath: Path, limit: int, files: set<Path>, extract: Path -> Extraction,
                                      generate: GenerateService)
    ensures var o := Related(filePath, limit, files, extract, None, generate);
      o.Failed? && StatusCode(o.failure) == (if filePath in files then 500 else 404)
  {
  }

  /**
   * With a content search, a readable existing file yields at most `limit`
   * entries taken in order from the `limit + 1` candidates, none of them the
   * file itself; and when enough other candidates come back, exactly `limit`.
   */
  lemma RelatedProperties(filePath: Path, limit: int, files: set<Path>, extract: Path -> Extraction,
                          search: ContentSearch, generate: GenerateService)
    requires filePath in files && extract(filePath).Elements?
    ensures var o := Related(filePath, limit, files, extract, Some(search), generate);
      var candidates := search(ExtractText(extract(filePath).texts), limit + 1);
      var kept := Without(candidates, filePath);
      && o.Success?
      && (limit >= 0 ==> |o.value| <= limit)
      && (limit >= 0 && |kept| >= limit ==> |o.value| == limit)
      && |o.value| <= |kept|
      && (forall i | 0 <= i < |o.value| ::
            && o.value[i].filePath == kept[i].filePath != filePath
            && o.value[i].score == kept[i].score
            && kept[i] in candidates)
  {
    var candidates := search(ExtractText(extract(filePath).texts), limit + 1);
    var kept := Without(candidates, filePath);
    var r := Slice(kept, limit);
    WithoutMembership(candidates, filePath);
    assert forall i | 0 <= i < |r| :: r[i] == kept[i];
    assert forall i | 0 <= i < |r| :: kept[i] in kept;
  }

  // ---------------------------------------------------------------------------
  // The backend

  /** The application state of `app.py`: one store, its processor, and `indexed_folders`. */
  class Backend {
    const store: Store
    const processor: Processor
    var indexedFolders: seq<Path>

    ghost predicate Valid()
      reads this
    {
      processor.store == store
    }

    function State(): BackendState
      reads this, store
    {
      BackendState(indexedFolders, store.State())
    }

    /** The state after startup: no folders indexed yet. */
    constructor (store: Store, processor: Processor)
      requires processor.store == store
      ensures Valid() && this.store == store && this.processor == processor
      ensures indexedFolders == []
    {
      this.store := store;
      this.processor := processor;
      indexedFolders := [];
    }

    /** `index_folders`: validate, reset when the folder set changes, process, record. */
    method IndexFolders(folders: seq<Path>, dirs: set<Path>, walk: Walk, extract: Path -> Extraction,
                        service: EmbeddingService, clock: nat -> string)
      returns (outcome: Outcome<nat>)
      requires Valid()
      modifies this, store
      ensures (outcome, State()) == AfterIndex(old(State()), folders, dirs, walk, extract, service, clock)
    {
      if folders == [] {
        return Failed(NoFoldersProvided);
      }
      var invalid := NotDirectories(folders, dirs);
      if invalid != [] {
        return Failed(InvalidFolders(invalid));
      }
      if FolderSet(indexedFolders) != FolderSet(folders) {
        store.Reset();
      }
      var count := processor.ProcessFolders(folders, walk, extract, service, clock);
      indexedFolders := folders;
      return Success(count);
    }

    /**
     * `search_documents`: refused with 400 while nothing is indexed; otherwise
     * the store's results, each with a summary focused on the query.
     */
    method SearchDocuments(query: string, limit: int, service: EmbeddingService,
                           nearest: (Vector, int) -> Option<seq<Neighbour>>, onDisk: set<Path>,
                           generate: GenerateService)
      returns (outcome: Outcome<seq<Entry>>)
      ensures indexedFolders == [] <==> outcome == Failed(NoFoldersIndexed)
      ensures outcome.Success? ==>
        outcome.value == Summarised(SearchResults(store.State(), query, limit, service, nearest, onDisk),
                                    Some(query), SearchSummaryLength, generate)
      ensures outcome.Success? || outcome == Failed(NoFoldersIndexed)
    {
      if indexedFolders == [] {
        return Failed(NoFoldersIndexed);
      }
      var results := store.Search(query, limit, service, nearest, onDisk);
      var enhanced := Summarise(results, Some(query), SearchSummaryLength, generate);
      return Success(enhanced);
    }

    /** `get_related`, against the given content search. */
    method GetRelated(filePath: Path, limit: int, files: set<Path>, extract: Path -> Extraction,
                      search: ContentSearch, generate: GenerateService)
      returns (outcome: Outcome<seq<Entry>>)
      ensures outcome == Related(filePath, limit, files, extract, Some(search), generate)
    {
      if filePath !in files {
        return Failed(FileNotFound);
      }
      var extraction := extract(filePath);
      if extraction.ExtractionRaised? {
        return Failed(RelatedFailed);
      }
      var content := ExtractText(extraction.texts);
      var results := search(content, limit + 1);
      var related := Slice(Without(results, filePath), limit);
      var entries := Summarise(related, None, RelatedSummaryLength, generate);
      return Success(entries);
    }
  }

  /** The loop that attaches a summary to each hit in turn. */
  method Summarise(hits: seq<Hit>, queryContext: Option<string>, maxLength: int, generate: GenerateService)
    returns (entries: seq<Entry>)
    ensures entries == Summarised(hits, queryContext, maxLength, generate)
  {
    entries := [];
    for i := 0 to |hits|
      invariant |entries| == i
      invariant forall j | 0 <= j < i :: entries[j] == WithSummary(hits[j], queryContext, maxLength, generate)
    {
      entries := entries + [WithSummary(hits[i], queryContext, maxLength, generate)];
    }
  }
}
