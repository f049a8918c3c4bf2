# Document index bookkeeping of the AI document search assistant

This project models, in Dafny, the part of the assistant's Python backend that
keeps the document index: which files are picked up from the indexed folders,
how a file's text becomes a stored record, how the vector store keeps its flat
index, its `documents` map and its `doc_count` in step (insertion, reset,
snapshots every fiftieth insertion, loading only when both saved artifacts
exist), how a search result list is filtered, deduplicated, scored and cut to
`limit`, and the HTTP layer's decisions for `/index`, `/search` and `/related`
over the global `indexed_folders` list.

Everything outside the process is an oracle passed in as a parameter:
- the embedding endpoint (`string -> EmbeddingReply`, keyed by the text actually sent);
- the generation endpoint (keyed by the request);
- the nearest-neighbour query of the index (`(vector, k) -> Option<neighbours>`, `None` when it raises);
- `os.walk` (`folder -> paths`);
- text extraction (`path -> Extraction`);
- the timestamps (`position -> string`);
- the sets of existing files and directories.

## Layout

- `wrappers.dfy` holds `Option`.
- `text.dfy` holds the Python string operations the code relies on: `strip`, the blank test `not s or not s.strip()`, `lower`, `endswith`, prefix slicing `s[:n]` (negative `n` included) and `sep.join`.
- `llm_client.dfy` (`backend/llm_client.py`) holds the pure policies around the HTTP calls:
  - the "empty document" sentinel and the 10 000-character cap;
  - the 768-zero fallback;
  - prompt selection;
  - `max_tokens = max(100, max_length // 3)`;
  - summary clipping;
  - context clipping for answers.
- `vector_store.dfy` (`backend/vector_store.py`) holds three things:
  - the store state as a value (`StoreState`) with one transition function per operation;
  - the ranking specification `Ranked`;
  - the class `Store`, whose fields the methods update in place and whose methods are proved equal to those transitions. `FormatResults` is the loop of `_format_results`, proved equal to `Ranked`.
- `document_processor.dfy` (`backend/document_processor.py`) holds:
  - the extension allow-list;
  - collecting files from folders (`Collect`);
  - the join of element texts;
  - the metadata record;
  - `_process_and_store` as a store transition;
  - the class `Processor`, whose `ProcessFolders` is the nested collection loop followed by the processing loop.
- `app.dfy` (`backend/app.py`) holds:
  - `index_folders` as a transition on (`indexed_folders`, store);
  - the class `Backend` holding `indexed_folders`;
  - the search guard;
  - `get_related`.

Behaviour of the code worth knowing:
- A failed embedding call yields exactly 768 zeros, whatever the store's dimension.
- A successful embedding reply without an `embedding` member yields the empty list, which is then zero-padded.
- Snapshots are written synchronously inside `add_document`.
- `_format_results` appends before it compares with `limit`, so called directly with a `limit` below 1 it still returns one hit (`Cap` in the model). Through `search` this case never shows: a `limit` below 1 asks the index for `min(2*limit, ntotal) <= 0` neighbours, which yields no hits or raises, and either way `search` returns `[]`.
- `/related` depends on `VectorStore.search_by_content`, which `VectorStore` does not define (see Findings).

## Model

| member | source | states |
|---|---|---|
| `Text.Strip` | backend/llm_client.py:131 | The stripped text is no longer than the input, and neither its first nor its last character is whitespace. |
| `Text.StripIsMiddle` | backend/llm_client.py:131 | The stripped text is a contiguous middle part of the input. Everything before it and everything after it is whitespace. |
| `Text.BlankIffAllSpace` | backend/document_processor.py:44 | `not s or not s.strip()` holds exactly when every character of `s` is whitespace. The empty text counts as blank. |
| `Text.StripIdempotent` | backend/llm_client.py:178 | Stripping a stripped text changes nothing. |
| `Text.Lower` | backend/document_processor.py:89 | Lower-casing keeps the length and maps each character independently: upper-case ASCII letters to their lower-case forms, everything else unchanged. |
| `Text.LowerIdempotent` | backend/document_processor.py:89 | Lower-casing twice equals lower-casing once. |
| `Text.EndsWithLower` | backend/document_processor.py:89 | `s.lower().endswith(suffix)` holds iff the suffix is no longer than `s` and the last characters of `s`, each lower-cased, spell it. |
| `Text.Slice` | backend/vector_store.py:49 | `s[:n]` is a prefix of `s`. Its length is `min(n, len(s))` for `n >= 0`, and `len(s) + n` (at least 0) for negative `n`. |
| `Text.JoinLength` | backend/document_processor.py:67 | A join is as long as its parts plus one separator between each pair of neighbours. |
| `Text.JoinAppend` | backend/document_processor.py:67 | Joining two non-empty lists equals joining each and putting one separator between the two results. |
| `LlmClient.Zeros` | backend/llm_client.py:80 | The fallback list has the requested length, and every entry is 0.0. |
| `LlmClient.EmbeddingText` | backend/llm_client.py:64-67 | Blank input is replaced by "empty document". Otherwise the text sent is a prefix of the input of length `min(len, 10000)`. It is never longer than 10 000 characters. |
| `LlmClient.GetEmbedding` | backend/llm_client.py:58-84 | Defined as the reply to the sent text, read as `get_embedding` reads it. Its properties are stated by `EmbeddingText`, `FailedCallYieldsZeroVector`, `MissingEmbeddingYieldsEmptyList` and `EmbeddingSeesOnlyTheSentPrefix`. |
| `LlmClient.FailedCallYieldsZeroVector` | backend/llm_client.py:74-84 | A call that raises, a non-200 status or an unreadable body yields exactly 768 zeros. |
| `LlmClient.MissingEmbeddingYieldsEmptyList` | backend/llm_client.py:74-76 | A 200 reply without an "embedding" member yields the empty list, not the fallback. |
| `LlmClient.EmbeddingSeesOnlyTheSentPrefix` | backend/llm_client.py:64-72 | Two non-blank texts that agree on their first 10 000 characters get the same embedding, and so do any two blank texts. |
| `LlmClient.SummaryMaxTokens` | backend/llm_client.py:121 | `max_tokens` is at least 100. It is exactly 100 iff `max_length < 303`. Above that it is `max_length // 3`, characterised by `3t <= max_length < 3t + 3`. |
| `LlmClient.SummaryRequest` | backend/llm_client.py:92-124 | The query-focused prompt is chosen iff `query_context` is truthy, and it then carries that query. Otherwise the document prompt is chosen. Either way the prompt carries the file path, `max_length`, and the excerpt `content[:3000]`: a prefix of exactly `min(len(content), 3000)` characters. `max_tokens` is `SummaryMaxTokens(max_length)`. |
| `LlmClient.ClipSummary` | backend/llm_client.py:131-133 | The summary is stripped. When the stripped text exceeds `max_length`, the result ends in "..." after a prefix of the stripped text. That result has length `max_length` when `max_length >= 3`, and exceeds `max_length` otherwise. |
| `LlmClient.GenerateSummary` | backend/llm_client.py:86-142 | Defined as the reply to `SummaryRequest`: a raised call or unreadable body gives "Error generating summary.", a non-200 status gives "Summary generation failed.", otherwise the `ClipSummary` of the response. Its properties are stated by `SummaryRequest`, `ClipSummary` and `SummaryFitsOrFails`. |
| `LlmClient.SummaryFitsOrFails` | backend/llm_client.py:126-142 | For `max_length >= 3`, a summary is one of the two failure messages or fits in `max_length` characters. |
| `LlmClient.AnswerRequest` | backend/llm_client.py:150-173 | The question-answer prompt carries the question and the excerpt `context[:4000]`: a prefix of exactly `min(len(context), 4000)` characters. `max_tokens` is 500. |
| `LlmClient.AnswerQuestion` | backend/llm_client.py:175-185 | A raised call or an unreadable body gives "Error processing your question.", and a non-200 status gives "Failed to answer question.". A 200 reply gives its `response` stripped, or "" when the reply has none. So the answer is a failure message or already stripped. |
| `VectorStore.Prepare` | backend/vector_store.py:114-120 | The reconciled vector has exactly `dimension` entries. Entry `i` is the embedding's entry `i` where there is one, and 0.0 otherwise. |
| `VectorStore.PrepareCases` | backend/vector_store.py:114-120 | A longer embedding is cut to its first `dimension` entries, and one of equal length is returned unchanged. A shorter one is itself followed by zeros. |
| `VectorStore.AfterAdd` | backend/vector_store.py:33-60 | Defined as the `add_document` transition: embed, reconcile, append, and snapshot on every 50th insertion. Its properties are stated by `AddDocumentAppends`, `AddDocumentRejectsNonVector`, `AddPreservesConsistency` and `SnapshotEveryFiftieth`. |
| `VectorStore.AppendKeepsConsistency` | backend/vector_store.py:43-53 | Appending a vector of the store's width and a record under the old counter keeps the index, the map keys `[0, doc_count)` and the counter in step. The old vectors are unchanged. |
| `VectorStore.AddDocumentAppends` | backend/vector_store.py:43-57 | On a consistent store, a list embedding gives a successful insertion (True). The count grows by one, the old vectors are kept, and the new vector is the reconciled embedding. `documents` gains exactly the old counter as key, whose record has `snippet == content[:1000]`; every other key is unchanged. |
| `VectorStore.AddDocumentRejectsNonVector` | backend/vector_store.py:34-60 | An embedding that is not a list gives False and leaves the whole state unchanged. |
| `VectorStore.AddPreservesConsistency` | backend/vector_store.py:33-60 | Insertion keeps a consistent store consistent, whether it succeeds or not. |
| `VectorStore.SnapshotEveryFiftieth` | backend/vector_store.py:53-55 | Both artifacts are rewritten with the new state exactly when an insertion succeeds and the new counter is a multiple of 50. Otherwise they are untouched. |
| `VectorStore.AfterReset` | backend/vector_store.py:83-91 | Defined as an empty index of the same dimension, no documents, counter 0 and no artifacts. Its properties are stated by `ResetIsFreshAndIdempotent`. |
| `VectorStore.AfterSave` | backend/vector_store.py:93-99 | Defined as both artifacts rewritten from the current state. Its properties are stated by `SavedArtifactsAreConsistent` and `SaveLoadRoundTrip`. |
| `VectorStore.AfterLoad` | backend/vector_store.py:101-112 | Defined as adopting the artifacts when both are present. Its properties are stated by `LoadNeedsBothArtifacts`, `LoadPreservesConsistency` and `SaveLoadRoundTrip`. |
| `VectorStore.ResetIsFreshAndIdempotent` | backend/vector_store.py:83-91 | After a reset the store has no documents and counter 0, keeps its dimension and is consistent. Both saved artifacts are gone, so loading then adopts nothing, and a second reset equals the first. |
| `VectorStore.LoadNeedsBothArtifacts` | backend/vector_store.py:101-112 | With either artifact missing, loading leaves the state unchanged. |
| `VectorStore.LoadPreservesConsistency` | backend/vector_store.py:105-110 | Loading a consistent pair of artifacts gives a consistent store. A load that finds an artifact missing keeps a consistent store consistent. |
| `VectorStore.SavedArtifactsAreConsistent` | backend/vector_store.py:93-97 | Saving a consistent store writes a consistent pair of artifacts. |
| `VectorStore.SaveLoadRoundTrip` | backend/vector_store.py:93-110 | Save followed by loading into a fresh store of the same dimension restores the index, the documents and the counter. Every search then returns the same results. |
| `VectorStore.Score` | backend/vector_store.py:137 | The score of a distance `d >= 0` lies in (0, 1] and is the inverse of `1 + d`. |
| `VectorStore.ScoreStrictlyDecreasing` | backend/vector_store.py:137 | A smaller distance scores strictly higher. |
| `VectorStore.Selected` | backend/vector_store.py:122-143 | Defined as the `_format_results` loop without the limit: each admitted neighbour in order, skipped when its path was already kept. Its properties are stated by `SelectedPaths`, `SelectedDistinct`, `SelectedPrefix` and `SelectedOrigins`. |
| `VectorStore.Ranked` | backend/vector_store.py:122-143 | Defined as the selected hits cut after `Cap(limit)`. Its properties are stated by `RankedProperties` and `RankedScoresNonIncreasing`, and `Store.FormatResults` is proved equal to it. |
| `VectorStore.SelectedPaths` | backend/vector_store.py:126-134 | The paths kept by the filter are exactly the paths of the admitted neighbours: in range, known, existing. |
| `VectorStore.SelectedDistinct` | backend/vector_store.py:132-134 | The filter never keeps two hits with the same path. |
| `VectorStore.SelectedPrefix` | backend/vector_store.py:125-142 | Filtering a prefix of the neighbours gives a prefix of the full filtered list. This is why stopping early is sound. |
| `VectorStore.SelectedOrigins` | backend/vector_store.py:125-140 | Each kept hit comes from an admitted neighbour, at strictly increasing positions. Each is the closest admitted neighbour with its path. |
| `VectorStore.RankedProperties` | backend/vector_store.py:122-143 | The results number at most `limit`, or one when `limit < 1`, and no path appears twice. Each result is an id in `[0, doc_count)` present in `documents` whose file exists, scored `1/(1+d)` and carrying its snippet and metadata. The results follow the input order, and each is the first occurrence of its path. With fewer results than the cap, every admissible path is present. |
| `VectorStore.RankedScoresNonIncreasing` | backend/vector_store.py:122-143 | Neighbours in ascending distance order yield non-increasing scores. |
| `VectorStore.QueryVector` | backend/vector_store.py:65-69 | The query vector is missing exactly when the embedding is not a list. Otherwise it has exactly the store's width: the embedding's values where it has them, zeros past its end. |
| `VectorStore.SearchResults` | backend/vector_store.py:62-80 | Defined as the `search` pipeline, with every failure giving `[]`. Its properties are stated by `SearchAsksForTwiceTheLimit`, `SearchBelowOneIsEmpty` and `SaveLoadRoundTrip`, and `Store.Search` is proved equal to it. |
| `VectorStore.SearchAsksForTwiceTheLimit` | backend/vector_store.py:62-80 | An empty index yields `[]`. Otherwise the index is asked for exactly `min(2*limit, ntotal)` neighbours of the reconciled query. A failure yields `[]`, and otherwise the neighbours are ranked. |
| `VectorStore.SearchBelowOneIsEmpty` | backend/vector_store.py:73-77 | With `limit < 1`, and an index that returns no more neighbours than asked for, a search gives `[]`. |
| `VectorStore.Store.constructor` | backend/vector_store.py:27-31 | A new store starts empty at its dimension, then attempts a load. |
| `VectorStore.Store.Open` | backend/vector_store.py:17-31 | Construction fails exactly when the "test" probe is not a list. The dimension is the requested one, or the probe's length when none is requested. The initial state is the result of loading into an empty store. |
| `VectorStore.Store.AddDocument` | backend/vector_store.py:33-60 | The returned flag and the new fields are those of the `add_document` transition on the old fields. |
| `VectorStore.Store.Reset` | backend/vector_store.py:83-91 | The new fields are the reset of the old ones. |
| `VectorStore.Store.SaveIndex` | backend/vector_store.py:93-99 | Both artifacts now hold the current index, documents and counter. |
| `VectorStore.Store.LoadIndex` | backend/vector_store.py:101-112 | The new fields are the load transition of the old ones. |
| `VectorStore.Store.Search` | backend/vector_store.py:62-80 | The results are the search specification of the current state. |
| `VectorStore.Store.FormatResults` | backend/vector_store.py:122-143 | The loop with its `seen` set returns exactly `Ranked` of the current documents, counter and existing files. |
| `DocumentProcessor.IsSupportedFile` | backend/document_processor.py:79-89 | Defined as "the lower-cased path ends with one of the nine extensions". Its properties are stated by `SupportedIffListedExtension`, `SupportIgnoresCase`, `UpperCaseExtensionAccepted` and `InnerExtensionRejected`. |
| `DocumentProcessor.SupportedIffListedExtension` | backend/document_processor.py:79-89 | Read off the raw path, a path is supported iff it is at least as long as one of `.pdf .docx .pptx .txt .eml .html .md .jpg .png` and its last characters, each lower-cased, spell that extension. |
| `DocumentProcessor.SupportIgnoresCase` | backend/document_processor.py:89 | A path and its lower-cased form are treated alike. |
| `DocumentProcessor.UpperCaseExtensionAccepted` | backend/document_processor.py:86-89 | "/docs/Report.PDF" is accepted. |
| `DocumentProcessor.InnerExtensionRejected` | backend/document_processor.py:86-89 | "report.pdf.bak" is rejected: only the final extension matters. |
| `DocumentProcessor.Supported` | backend/document_processor.py:27-30 | One folder's listing filtered to the supported paths, never longer than the listing. `SupportedMembership` states which paths are kept and `SupportedAppend` that order and repeats survive. |
| `DocumentProcessor.SupportedAppend` | backend/document_processor.py:27-30 | Filtering a concatenated listing is filtering each part, in order. So listing order is kept and a path listed twice is kept twice. |
| `DocumentProcessor.SupportedMembership` | backend/document_processor.py:27-30 | A listed path is kept exactly when it is supported. |
| `DocumentProcessor.Collect` | backend/document_processor.py:24-30 | Defined as each folder's supported files in turn. Its properties are stated by `CollectedAreSupported`, `CollectAppend` and `RepeatedFolderCountsTwice`, and `CollectFiles` is proved equal to it. |
| `DocumentProcessor.CollectFiles` | backend/document_processor.py:24-30 | The nested collection loops build exactly `Collect` of the folders. |
| `DocumentProcessor.CollectedAreSupported` | backend/document_processor.py:24-30 | The collected paths are exactly the supported files found under one of the folders. |
| `DocumentProcessor.CollectAppend` | backend/document_processor.py:24-30 | Collecting is folder by folder with no de-duplication. The list for `a + b` is the list for `a` followed by the list for `b`. |
| `DocumentProcessor.RepeatedFolderCountsTwice` | backend/document_processor.py:24-34 | Naming the same folder twice counts its files twice. |
| `DocumentProcessor.Present` | backend/document_processor.py:67 | The texts kept are exactly the elements' texts that are not None. |
| `DocumentProcessor.PresentAppend` | backend/document_processor.py:67 | Keeping the present texts distributes over concatenation, so element order is kept. |
| `DocumentProcessor.ExtractText` | backend/document_processor.py:66-67 | Defined as the newline join of the present element texts. Its properties are stated by `ExtractTextSnoc`, `Present`, `PresentAppend`, `Text.JoinLength` and `Text.JoinAppend`. |
| `DocumentProcessor.ExtractTextSnoc` | backend/document_processor.py:66-67 | An element without text adds nothing to the extracted text. One with text adds a newline (unless it is the first) and its text. |
| `DocumentProcessor.BasenameIsLastComponent` | backend/document_processor.py:49 | The base name is a suffix of the path containing no '/', preceded by a '/' unless it is the whole path. |
| `DocumentProcessor.MetadataForFields` | backend/document_processor.py:48-51 | The metadata has exactly the keys "filename" and "path", holding the base name and the path. |
| `DocumentProcessor.ProcessOne` | backend/document_processor.py:36-57 | Defined as the `_process_and_store` transition: skip a failed or blank extraction, otherwise `add_document` with the file's metadata. Its properties are stated by `ProcessOneEffect`. |
| `DocumentProcessor.IngestAll` | backend/document_processor.py:32-33 | Defined as processing the files one after another. Its properties are stated by `IngestAllEffect` and `ReportedCountBoundsInsertions`. |
| `DocumentProcessor.ProcessOneEffect` | backend/document_processor.py:36-57 | A failed extraction, blank text or a non-list embedding leaves the documents, index and counter unchanged. Otherwise exactly one record is added under the old counter: that path, its metadata, the first 1000 characters of the text. Consistency is kept. |
| `DocumentProcessor.IngestibleFiles` | backend/document_processor.py:32-57 | There are as many listed files as the batch has ingestible files, and each is from the batch. `IngestibleFilesMembership` states which files are listed, and `IngestibleFilesAppend` that order and repeats survive. |
| `DocumentProcessor.IngestibleFilesMembership` | backend/document_processor.py:32-57 | A path is listed exactly when it is in the batch and its extraction yields a record: text that is not blank, and an embedding that is a list. |
| `DocumentProcessor.IngestibleFilesAppend` | backend/document_processor.py:32-57 | Listing a concatenated batch lists each part, in order. So batch order is kept, and a path that occurs twice and yields a record is listed twice. |
| `DocumentProcessor.IngestAllAddsInOrder` | backend/document_processor.py:32-57 | Processing a batch keeps every earlier record. The new records come one per ingestible file, in batch order, each with its file's path and metadata. |
| `DocumentProcessor.IngestAllEffect` | backend/document_processor.py:17-57 | Processing a batch keeps the store consistent and adds exactly one record per ingestible file, in batch order. It leaves every earlier record unchanged. Every new record is one of the batch's files, with its metadata. |
| `DocumentProcessor.ReportedCountBoundsInsertions` | backend/document_processor.py:24-34 | The number of records added never exceeds the count reported, which is the number of collected paths. |
| `DocumentProcessor.Processor.constructor` | backend/document_processor.py:7-15 | The processor works on the given store. |
| `DocumentProcessor.Processor.ProcessFolders` | backend/document_processor.py:17-34 | Returns the number of collected paths, duplicates included. The store ends as the collected files processed in order. |
| `DocumentProcessor.Processor.ProcessAndStore` | backend/document_processor.py:36-57 | The store ends as the single-file transition of its old state. |
| `App.NotDirectories` | backend/app.py:154 | The invalid list holds exactly the requested folders that are not directories. It is empty iff every folder is a directory. |
| `App.ResetIffFolderSetDiffers` | backend/app.py:161-162 | The store is reset exactly when the indexed and requested lists name different folders, regardless of order and repetition. |
| `App.AfterIndex` | backend/app.py:145-175 | Defined as the `index_folders` transition on (`indexed_folders`, store). Its properties are stated by `IndexOutcomes`, `ResetIffFolderSetDiffers`, `ChangedFoldersHoldOnlyNewFiles` and `SameFoldersKeepAndAccumulate`. |
| `App.IndexOutcomes` | backend/app.py:145-172 | An empty list is refused with 400, and so is a list naming a non-directory, listing exactly the offenders. Neither changes anything. Any other request succeeds: it reports the processor's count and records the requested list. |
| `App.ChangedFoldersHoldOnlyNewFiles` | backend/app.py:161-166 | After indexing a different folder set, every stored record is one of the newly collected files with its metadata. Records 0, 1, … are the ingestible collected files, one each, in collection order. |
| `App.SameFoldersKeepAndAccumulate` | backend/app.py:161-166 | Indexing the same folder set keeps every earlier record. After them come the ingestible collected files again, one record each, in collection order. |
| `App.SummarisedKeepsHits` | backend/app.py:189-207 | Enriched results keep the hits in order, with their path, score, snippet and metadata. Each summary fits `max_length` or is a failure message. |
| `App.Without` | backend/app.py:255 | Filtering out the requested file never lengthens the candidate list. |
| `App.WithoutMembership` | backend/app.py:255 | The filtered candidates are exactly those whose path is not the requested file. |
| `App.WithoutAppend` | backend/app.py:255 | The filter distributes over concatenation, so candidate order is kept. |
| `App.Related` | backend/app.py:238-268 | Defined as `get_related`, with the content search as an optional argument, where none stands for the missing method. Its properties are stated by `RelatedAsWrittenNeverSucceeds` and `RelatedProperties`. |
| `App.RelatedAsWrittenNeverSucceeds` | backend/app.py:244-268 | As written, a request for an existing file always ends in 500, and one for a missing file in 404. |
| `App.RelatedProperties` | backend/app.py:249-263 | With a content search, a readable existing file yields at most `limit` entries, and exactly `limit` when enough other candidates exist. The entries are taken in order from the `limit + 1` candidates, and none is the requested file. |
| `App.Backend.constructor` | backend/app.py:107-111 | At startup no folders are indexed. |
| `App.Backend.IndexFolders` | backend/app.py:145-175 | The outcome and the new folder list and store are those of the `index_folders` transition. |
| `App.Backend.SearchDocuments` | backend/app.py:177-209 | Refused with 400 exactly while no folders are indexed. Otherwise the result is the store's results for the query, in order, each with the summary generated for the query with `max_length` 150. |
| `App.Backend.GetRelated` | backend/app.py:238-265 | The outcome is that of `get_related` with a content search supplied. |
| `App.Summarise` | backend/app.py:189-207 | The loop attaches, in order, a summary to each hit. |

## Left out

- L2 normalisation (`faiss.normalize_L2`), `float32` rounding and the nearest-neighbour computation itself. The index stores the reconciled vector. Neighbour ids and distances are an input, and a raising query is `None`.
- The persistence formats (`faiss.write_index`/`read_index`, pickle) and the storage directory. Saved artifacts are snapshots of the state. A write or read that raises (logged and swallowed) is not modelled.
- The HTTP calls to the model server are replaced by reply oracles. Also left out: `pull_model`, `process_chat_request` and the `/chat`, `/status`, `/summary` and `/open` routes.
- Filesystem and OS calls: existing files and directories are given sets, and `os.walk` and `partition` are oracles.
- Concurrency: `asyncio.gather` runs the per-file tasks concurrently. The model processes them one after another in collection order, with file `i` getting the `i`-th timestamp.
- `datetime.now()` timestamps are opaque strings from a clock oracle.
- The 500 path of `index_folders`: per-file failures are caught and `os.walk` reports no errors, so processing cannot raise in the model. A reset that fails to delete an artifact is not modelled. The rule that a failed processing keeps the old `indexed_folders` therefore has no counterpart.
- The 500 path of `search_documents`: `search` and `generate_summary` catch their own failures.
- `Text.Lower`: does not model Unicode case mapping, because only the ASCII letters in file extensions matter for the allow-list.
- `DocumentProcessor.BasenameIsLastComponent`: does not model Windows separators, because it is stated for '/' only.
- The `embedding` member of a reply is either a list of numbers or something else. Lists of non-numbers are not distinguished.
- A document record that is an empty dict (falsy) cannot arise, because `add_document` always writes four keys. Only a missing id is modelled.
- Negative or NaN distances: distances are non-negative reals.
- `backend/utils.py`, `frontend/main.js`, `frontend/preload.js`, `frontend/renderer.js` and the startup hook that probes and launches the model server are not part of this model.

## Findings

| source | as written | input that shows it | evidently intended | confidence | as-written member | corrected member |
|---|---|---|---|---|---|---|
| backend/app.py:249-252 | `get_related` awaits `vector_store.search_by_content(...)`, but `VectorStore` defines no such method. The attribute lookup raises, the handler catches it, and every request answers 500. | `/related` with `file_path` naming any existing, readable file | Search the store by the file's extracted text for `limit + 1` candidates, drop the file itself, keep at most `limit` | high (not executed) | `App.RelatedAsWrittenNeverSucceeds` | `App.RelatedProperties` |
