/**
 * The document store: a flat vector index, the map from sequential document id
 * to document record, the document counter, and the two persisted artifacts
 * (`index.faiss` and `documents.pickle`).
 *
 * The pure part states each transition of the store on a `StoreState` value and
 * the ranking post-filter of a search; the class `Store` holds the same state in
 * fields and is proved against those functions.
 */
module VectorStore {
  import opened Wrappers
  import opened Text
  import opened LlmClient

  type Path = string
  type Vector = seq<real>
  /** The caller's metadata, opaque to the store. */
  type Metadata = map<string, string>
  /** A squared L2 distance as the flat index reports it. */
  type Distance = d: real | d >= 0.0 witness 0.0

  /** A document keeps the first this-many characters of its text. */
  const SnippetLength: nat := 1000
  /** Both artifacts are rewritten whenever the counter reaches a multiple of this. */
  const SnapshotInterval: nat := 50

  /** An exhaustive L2 index: its own dimension and the vectors in insertion order. */
  datatype FlatIndex = FlatIndex(d: nat, vectors: seq<Vector>)

  datatype Document = Document(filePath: Path, metadata: Metadata, snippet: string, timestamp: string)

  /** The content of `documents.pickle`. */
  datatype SavedDocuments = SavedDocuments(documents: map<int, Document>, docCount: nat)

  /** Everything a store instance owns, in memory and in its storage directory. */
  datatype StoreState = StoreState(
    dimension: nat,
    index: FlatIndex,
    documents: map<int, Document>,
    docCount: nat,
    indexFile: Option<FlatIndex>,
    documentsFile: Option<SavedDocuments>)

  /**
   * The three pieces of state in lockstep: one vector of the store's dimension
   * per document, and the ids are exactly 0 .. docCount-1.
   */
  ghost predicate Consistent(s: StoreState) {
    && s.index.d == s.dimension
    && |s.index.vectors| == s.docCount
    && (forall v | v in s.index.vectors :: |v| == s.dimension)
    && (forall id :: id in s.documents <==> 0 <= id < s.docCount)
  }

  /** Both artifacts are present and would load into a consistent store. */
  ghost predicate ArtifactsConsistent(s: StoreState) {
    s.indexFile.Some? && s.documentsFile.Some? &&
    Consistent(s.(index := s.indexFile.value,
                  documents := s.documentsFile.value.documents,
                  docCount := s.documentsFile.value.docCount))
  }

  // ---------------------------------------------------------------------------
  // Dimension reconciliation

  /** `_prepare_vector`: truncate or zero-pad an embedding to the store dimension. */
  function Prepare(embedding: Vector, dimension: nat): (v: Vector)
    ensures |v| == dimension
    ensures forall i | 0 <= i < dimension :: v[i] == if i < |embedding| then embedding[i] else 0.0
  {
    if |embedding| > dimension then embedding[..dimension]
    else if |embedding| < dimension then embedding + Zeros(dimension - |embedding|)
    else embedding
  }

  /** The three cases of reconciliation, as whole sequences. */
  lemma PrepareCases(embedding: Vector, dimension: nat)
    ensures |embedding| >= dimension ==> Prepare(embedding, dimension) == embedding[..dimension]
    ensures |embedding| <= dimension ==>
              Prepare(embedding, dimension)[..|embedding|] == embedding &&
              Prepare(embedding, dimension)[|embedding|..] == Zeros(dimension - |embedding|)
  {
    var v := Prepare(embedding, dimension);
    if |embedding| <= dimension {
      assert v[..|embedding|] == embedding;
      assert v[|embedding|..] == Zeros(dimension - |embedding|);
    }
  }

  // ---------------------------------------------------------------------------
  // Lifecycle transitions

  /** A store just constructed, before it looks at its storage directory. */
  function Initial(dimension: nat, indexFile: Option<FlatIndex>, documentsFile: Option<SavedDocuments>): StoreState {
    StoreState(dimension, FlatIndex(dimension, []), map[], 0, indexFile, documentsFile)
  }

  /** `_load_index`: adopt the saved state only when both artifacts are present. */
  function AfterLoad(s: StoreState): StoreState {
    if s.indexFile.Some? && s.documentsFile.Some? then
      s.(index := s.indexFile.value,
         documents := s.documentsFile.value.documents,
         docCount := s.documentsFile.value.docCount)
    else s
  }

  /** `_save_index`: rewrite both artifacts from the current state. */
  function AfterSave(s: StoreState): StoreState {
    s.(indexFile := Some(s.index), documentsFile := Some(SavedDocuments(s.documents, s.docCount)))
  }

  /** `reset`: an empty index of the same dimension, no documents, no artifacts. */
  function AfterReset(s: StoreState): StoreState {
    Initial(s.dimension, None, None)
  }

  datatype AddResult = AddResult(state: StoreState, added: bool)

  /** `add_document`, with the embedding obtained from the given service. */
  function AfterAdd(s: StoreState, filePath: Path, content: string, metadata: Metadata,
                    service: EmbeddingService, timestamp: string): AddResult
  {
    match GetEmbedding(content, service)
    case NotAVector => AddResult(s, false)
    case Vector(values) =>
      var v := Prepare(values, s.dimension);
      if |v| != s.index.d then AddResult(s, false)  // the index refuses a vector of another width
      else
        var t := Append(s, v, Document(filePath, metadata, Slice(content, SnippetLength), timestamp));
        AddResult(if t.docCount % SnapshotInterval == 0 then AfterSave(t) else t, true)
  }

  /** The in-memory part of a successful insertion: the vector, the record under the counter, the counter. */
  function Append(s: StoreState, v: Vector, doc: Document): StoreState {
    s.(index := s.index.(vectors := s.index.vectors + [v]),
       documents := s.documents[s.docCount := doc],
       docCount := s.docCount + 1)
  }

  lemma AppendKeepsConsistency(s: StoreState, v: Vector, doc: Document)
    requires Consistent(s) && |v| == s.dimension
    ensures var t := Append(s, v, doc);
      && Consistent(t)
      && t.index.vectors[..s.docCount] == s.index.vectors
      && t.documents.Keys == s.documents.Keys + {s.docCount}
      && s.docCount !in s.documents
  {
    var t := Append(s, v, doc);
    assert t.index.vectors[..s.docCount] == s.index.vectors;
    assert forall w | w in t.index.vectors :: w in s.index.vectors || w == v;
  }

  /**
   * A successful insertion on a consistent store: one more vector, one more
   * document under the old counter value, nothing else in the map changed.
   */
  lemma AddDocumentAppends(s: StoreState, filePath: Path, content: string, metadata: Metadata,
                           service: EmbeddingService, timestamp: string)
    requires Consistent(s)
    requires GetEmbedding(content, service).Vector?
    ensures var r := AfterAdd(s, filePath, content, metadata, service, timestamp);
      && r.added
      && Consistent(r.state)
      && r.state.docCount == s.docCount + 1
      && r.state.index.vectors[..s.docCount] == s.index.vectors
      && r.state.index.vectors[s.docCount] == Prepare(GetEmbedding(content, service).values, s.dimension)
      && s.docCount !in s.documents
      && r.state.documents == s.documents[s.docCount := Document(filePath, metadata, Slice(content, SnippetLength), timestamp)]
  {
    var e := GetEmbedding(content, service);
    var v := Prepare(e.values, s.dimension);
    var doc := Document(filePath, metadata, Slice(content, SnippetLength), timestamp);
    var t := Append(s, v, doc);
    AppendKeepsConsistency(s, v, doc);
    var r := AfterAdd(s, filePath, content, metadata, service, timestamp);
    assert r == AddResult(if t.docCount % SnapshotInterval == 0 then AfterSave(t) else t, true);
    assert r.state.index == t.index && r.state.documents == t.documents && r.state.docCount == t.docCount;
  }

  /** An embedding that is not a list is refused before anything changes. */
  lemma AddDocumentRejectsNonVector(s: StoreState, filePath: Path, content: string, metadata: Metadata,
                                    service: EmbeddingService, timestamp: string)
    requires GetEmbedding(content, service).NotAVector?
    ensures AfterAdd(s, filePath, content, metadata, service, timestamp) == AddResult(s, false)
  {
  }

  /** Insertion keeps the store consistent, whether it succeeds or not. */
  lemma AddPreservesConsistency(s: StoreState, filePath: Path, content: string, metadata: Metadata,
                                service: EmbeddingService, timestamp: string)
    requires Consistent(s)
    ensures Consistent(AfterAdd(s, filePath, content, metadata, service, timestamp).state)
  {
    if GetEmbedding(content, service).Vector? {
      AddDocumentAppends(s, filePath, content, metadata, service, timestamp);
    }
  }

  /** Both artifacts are rewritten exactly when the new counter is a multiple of 50. */
  lemma SnapshotEveryFiftieth(s: StoreState, filePath: Path, content: string, metadata: Metadata,
                              service: EmbeddingService, timestamp: string)
    ensures var r := AfterAdd(s, filePath, content, metadata, service, timestamp);
      if r.added && r.state.docCount % SnapshotInterval == 0 then
        r.state.indexFile == Some(r.state.index) &&
        r.state.documentsFile == Some(SavedDocuments(r.state.documents, r.state.docCount))
      else
        r.state.indexFile == s.indexFile && r.state.documentsFile == s.documentsFile
  {
  }

  /**
   * After a reset the store is empty, keeps its width and is consistent; both
   * saved artifacts are gone, so loading adopts nothing, and a second reset
   * changes nothing.
   */
  lemma ResetIsFreshAndIdempotent(s: StoreState)
    ensures AfterReset(s).docCount == 0 && AfterReset(s).documents == map[]
    ensures AfterReset(s).indexFile.None? && AfterReset(s).documentsFile.None?
    ensures AfterReset(s).dimension == s.dimension
    ensures AfterLoad(AfterReset(s)) == AfterReset(s)
    ensures Consistent(AfterReset(s))
    ensures AfterReset(AfterReset(s)) == AfterReset(s)
  {
  }

  /** Loading with either artifact missing changes nothing. */
  lemma LoadNeedsBothArtifacts(s: StoreState)
    requires s.indexFile.None? || s.documentsFile.None?
    ensures AfterLoad(s) == s
  {
  }

  /** Loading a consistent pair of artifacts gives a consistent store. */
  lemma LoadPreservesConsistency(s: StoreState)
    requires Consistent(s) || ArtifactsConsistent(s)
    ensures ArtifactsConsistent(s) ==> Consistent(AfterLoad(s))
    ensures s.indexFile.None? || s.documentsFile.None? ==> Consistent(AfterLoad(s))
  {
  }

  /** Saving keeps the artifacts consistent with a consistent store. */
  lemma SavedArtifactsAreConsistent(s: StoreState)
    requires Consistent(s)
    ensures ArtifactsConsistent(AfterSave(s))
  {
  }

  /**
   * A save followed by a load into a fresh store of the same dimension restores
   * the index, the documents and the counter, so every search ranks alike.
   */
  lemma SaveLoadRoundTrip(s: StoreState, query: string, limit: int, service: EmbeddingService,
                          nearest: (Vector, int) -> Option<seq<Neighbour>>, onDisk: set<Path>)
    ensures var saved := AfterSave(s);
      var loaded := AfterLoad(Initial(s.dimension, saved.indexFile, saved.documentsFile));
      && loaded.index == s.index && loaded.documents == s.documents && loaded.docCount == s.docCount
      && SearchResults(loaded, query, limit, service, nearest, onDisk) == SearchResults(s, query, limit, service, nearest, onDisk)
  {
  }

  // ---------------------------------------------------------------------------
  // Ranking

  /** The similarity reported for a distance. */
  function Score(d: Distance): (score: real)
    ensures 0.0 < score <= 1.0
    ensures score * (1.0 + d) == 1.0
  {
    1.0 / (1.0 + d)
  }

  /** Taking reciprocals reverses the order of positive reals. */
  lemma ReciprocalDecreasing(a: real, b: real)
    requires 0.0 < a < b
    ensures 1.0 / a > 1.0 / b
  {
    var x, y := 1.0 / a, 1.0 / b;
    assert x * a == 1.0 && y * b == 1.0;
    assert y > 0.0;
    assert y * a < y * b;
  }

  /** A closer neighbour always scores strictly higher. */
  lemma ScoreStrictlyDecreasing(d1: Distance, d2: Distance)
    requires d1 < d2
    ensures Score(d1) > Score(d2)
  {
    ReciprocalDecreasing(1.0 + d1, 1.0 + d2);
  }

  /** One neighbour as the index reports it: a position (-1 when missing) and a distance. */
  datatype Neighbour = Neighbour(id: int, distance: Distance)

  datatype Hit = Hit(filePath: Path, score: real, snippet: string, metadata: Metadata)

  /** What the ranking consults: the documents, the counter, and the paths that exist on disk. */
  datatype Catalog = Catalog(documents: map<int, Document>, docCount: int, onDisk: set<Path>)

  /** The hit a neighbour stands for, if its id is in range, known, and its file still exists. */
  function Admit(c: Catalog, n: Neighbour): Option<Hit> {
    if n.id < 0 || n.id >= c.docCount then None
    else if n.id !in c.documents then None
    else
      var doc := c.documents[n.id];
      if doc.filePath !in c.onDisk then None
      else Some(Hit(doc.filePath, Score(n.distance), doc.snippet, doc.metadata))
  }

  /** No two hits share a file path. */
  predicate DistinctPaths(hits: seq<Hit>) {
    forall a, b | 0 <= a < b < |hits| :: hits[a].filePath != hits[b].filePath
  }

  function PathsOf(hits: seq<Hit>): set<Path> {
    set k | 0 <= k < |hits| :: hits[k].filePath
  }

  lemma PathsOfSnoc(hits: seq<Hit>, h: Hit)
    ensures PathsOf(hits + [h]) == PathsOf(hits) + {h.filePath}
  {
    var next := hits + [h];
    assert next[|hits|] == h;
    assert forall k | 0 <= k < |hits| :: next[k] == hits[k];
  }

  /** The paths of all neighbours that are admitted at all. */
  function AdmittedPaths(c: Catalog, ns: seq<Neighbour>): set<Path> {
    set j | 0 <= j < |ns| && Admit(c, ns[j]).Some? :: Admit(c, ns[j]).value.filePath
  }

  /** The admitted hits, the first (closest) one per path, in neighbour order. */
  function Selected(c: Catalog, ns: seq<Neighbour>): seq<Hit>
    decreases |ns|
  {
    if ns == [] then []
    else
      var prev := Selected(c, ns[..|ns| - 1]);
      match Admit(c, ns[|ns| - 1])
      case None => prev
      case Some(h) => if h.filePath in PathsOf(prev) then prev else prev + [h]
  }

  /** The loop appends before it compares with the limit, so it always keeps at least one hit. */
  function Cap(limit: int): nat {
    if limit < 1 then 1 else limit
  }

  /** `_format_results`: the selected hits, cut after `Cap(limit)`. */
  function Ranked(c: Catalog, ns: seq<Neighbour>, limit: int): seq<Hit> {
    Slice(Selected(c, ns), Cap(limit))
  }

  lemma SelectedStep(c: Catalog, ns: seq<Neighbour>, i: nat)
    requires i < |ns|
    ensures Selected(c, ns[..i + 1]) ==
      match Admit(c, ns[i])
      case None => Selected(c, ns[..i])
      case Some(h) => if h.filePath in PathsOf(Selected(c, ns[..i])) then Selected(c, ns[..i])
                      else Selected(c, ns[..i]) + [h]
  {
    assert ns[..i + 1][..i] == ns[..i];
  }

  /** The selection names every admitted path, and only those. */
  lemma {:induction false} SelectedPaths(c: Catalog, ns: seq<Neighbour>)
    ensures PathsOf(Selected(c, ns)) == AdmittedPaths(c, ns)
    decreases |ns|
  {
    if ns != [] {
      var init := ns[..|ns| - 1];
      SelectedPaths(c, init);
      var prev := Selected(c, init);
      assert forall j | 0 <= j < |init| :: init[j] == ns[j];
      assert AdmittedPaths(c, ns) == AdmittedPaths(c, init) +
        (if Admit(c, ns[|ns| - 1]).Some? then {Admit(c, ns[|ns| - 1]).value.filePath} else {});
      match Admit(c, ns[|ns| - 1])
      case None =>
      case Some(h) =>
        if h.filePath !in PathsOf(prev) {
          PathsOfSnoc(prev, h);
        }
    }
  }

  /** No two selected hits share a path. */
  lemma {:induction false} SelectedDistinct(c: Catalog, ns: seq<Neighbour>)
    ensures DistinctPaths(Selected(c, ns))
    decreases |ns|
  {
    if ns != [] {
      var init := ns[..|ns| - 1];
      SelectedDistinct(c, init);
      var prev := Selected(c, init);
      var a := Admit(c, ns[|ns| - 1]);
      if a.Some? && a.value.filePath !in PathsOf(prev) {
        assert Selected(c, ns) == prev + [a.value];
        assert forall k | 0 <= k < |prev| :: prev[k].filePath in PathsOf(prev);
      } else {
        assert Selected(c, ns) == prev;
      }
    }
  }

  /** The selection over a prefix of the neighbours is a prefix of the whole selection. */
  lemma {:induction false} SelectedPrefix(c: Catalog, ns: seq<Neighbour>, i: nat)
    requires i <= |ns|
    ensures Selected(c, ns[..i]) <= Selected(c, ns)
    decreases |ns| - i
  {
    if i < |ns| {
      SelectedPrefix(c, ns, i + 1);
      SelectedStep(c, ns, i);
    } else {
      assert ns[..i] == ns;
    }
  }

  /**
   * Where each selected hit comes from: a strictly increasing run of neighbour
   * positions, each admitted, and each the first admitted one with its path.
   */
  lemma {:induction false} SelectedOrigins(c: Catalog, ns: seq<Neighbour>) returns (pos: seq<nat>)
    ensures var sel := Selected(c, ns);
      && |pos| == |sel|
      && (forall k | 0 <= k < |pos| :: pos[k] < |ns| && Admit(c, ns[pos[k]]) == Some(sel[k]))
      && (forall a, b | 0 <= a < b < |pos| :: pos[a] < pos[b])
      && (forall k, j | 0 <= k < |pos| && 0 <= j < pos[k] ::
            Admit(c, ns[j]).None? || Admit(c, ns[j]).value.filePath != sel[k].filePath)
    decreases |ns|
  {
    if ns == [] {
      pos := [];
    } else {
      var last := |ns| - 1;
      var init := ns[..last];
      var prevPos := SelectedOrigins(c, init);
      var prev := Selected(c, init);
      assert forall j | 0 <= j < last :: init[j] == ns[j];
      match Admit(c, ns[last])
      case None =>
        pos := prevPos;
      case Some(h) =>
        if h.filePath in PathsOf(prev) {
          pos := prevPos;
        } else {
          pos := prevPos + [last];
          SelectedPaths(c, init);
          forall j | 0 <= j < last
            ensures Admit(c, ns[j]).None? || Admit(c, ns[j]).value.filePath != h.filePath
          {
            if Admit(c, ns[j]).Some? {
              assert Admit(c, init[j]).value.filePath in AdmittedPaths(c, init);
            }
          }
        }
    }
  }

  /**
   * What `_format_results` promises: at most `limit` hits (one when `limit < 1`),
   * no path twice, each hit an in-range, known, still-existing document scored
   * `1/(1+d)` at a position after the previous hit's and the closest one with its
   * path; and when fewer than the cap come back, every admissible path is there.
   */
  lemma RankedProperties(c: Catalog, ns: seq<Neighbour>, limit: int) returns (pos: seq<nat>)
    ensures var r := Ranked(c, ns, limit);
      && |r| <= Cap(limit)
      && DistinctPaths(r)
      && |pos| == |r|
      && (forall a, b | 0 <= a < b < |pos| :: pos[a] < pos[b])
      && (forall k | 0 <= k < |r| ::
            && pos[k] < |ns|
            && 0 <= ns[pos[k]].id < c.docCount
            && ns[pos[k]].id in c.documents
            && r[k].filePath == c.documents[ns[pos[k]].id].filePath
            && r[k].filePath in c.onDisk
            && r[k].score == Score(ns[pos[k]].distance)
            && r[k].snippet == c.documents[ns[pos[k]].id].snippet
            && r[k].metadata == c.documents[ns[pos[k]].id].metadata)
      && (forall k, j | 0 <= k < |r| && 0 <= j < pos[k] ::
            Admit(c, ns[j]).None? || Admit(c, ns[j]).value.filePath != r[k].filePath)
      && (|r| < Cap(limit) ==> PathsOf(r) == AdmittedPaths(c, ns))
  {
    var sel := Selected(c, ns);
    var all := SelectedOrigins(c, ns);
    SelectedDistinct(c, ns);
    SelectedPaths(c, ns);
    var r := Ranked(c, ns, limit);
    pos := all[..|r|];
    assert forall k | 0 <= k < |r| :: r[k] == sel[k];
  }

  /** Neighbours in ascending distance order come back with non-increasing scores. */
  lemma RankedScoresNonIncreasing(c: Catalog, ns: seq<Neighbour>, limit: int)
    requires forall a, b | 0 <= a < b < |ns| :: ns[a].distance <= ns[b].distance
    ensures var r := Ranked(c, ns, limit);
      forall a, b | 0 <= a < b < |r| :: r[a].score >= r[b].score
  {
    var r := Ranked(c, ns, limit);
    var pos := RankedProperties(c, ns, limit);
    forall a, b | 0 <= a < b < |r| ensures r[a].score >= r[b].score {
      if ns[pos[a]].distance < ns[pos[b]].distance {
        ScoreStrictlyDecreasing(ns[pos[a]].distance, ns[pos[b]].distance);
      }
    }
  }

  /** The number of neighbours `search` asks the index for. */
  function NeighbourCount(limit: int, total: nat): int {
    if limit * 2 < total then limit * 2 else total
  }

  /**
   * The query vector `search` hands to the index: none when the embedding is
   * not a list; otherwise exactly the store's width, agreeing with the
   * embedding where it has a value and zero beyond it.
   */
  function QueryVector(query: string, service: EmbeddingService, dimension: nat): (v: Option<Vector>)
    ensures v.None? <==> GetEmbedding(query, service).NotAVector?
    ensures v.Some? ==> |v.value| == dimension
    ensures v.Some? ==> var e := GetEmbedding(query, service).values;
      forall i | 0 <= i < dimension :: v.value[i] == if i < |e| then e[i] else 0.0
  {
    match GetEmbedding(query, service)
    case NotAVector => None
    case Vector(values) => Some(Prepare(values, dimension))
  }

  /** `search`: embed, reconcile, ask the index, rank; every failure is the empty list. */
  function SearchResults(s: StoreState, query: string, limit: int, service: EmbeddingService,
                         nearest: (Vector, int) -> Option<seq<Neighbour>>, onDisk: set<Path>): seq<Hit>
  {
    match QueryVector(query, service, s.dimension)
    case None => []
    case Some(queryVector) =>
      if |s.index.vectors| == 0 || |queryVector| != s.index.d then []
      else match nearest(queryVector, NeighbourCount(limit, |s.index.vectors|))
        case None => []
        case Some(ns) => Ranked(Catalog(s.documents, s.docCount, onDisk), ns, limit)
  }

  /**
   * A search on an empty index is empty; otherwise the index is asked for
   * exactly `min(2*limit, ntotal)` neighbours of the reconciled query, and what
   * comes back is ranked.
   */
  lemma SearchAsksForTwiceTheLimit(s: StoreState, query: string, limit: int, service: EmbeddingService,
                                   nearest: (Vector, int) -> Option<seq<Neighbour>>, onDisk: set<Path>)
    ensures |s.index.vectors| == 0 ==> SearchResults(s, query, limit, service, nearest, onDisk) == []
    ensures var e := GetEmbedding(query, service);
      e.Vector? && Consistent(s) && |s.index.vectors| > 0 ==>
        var k := NeighbourCount(limit, |s.index.vectors|);
        && k <= |s.index.vectors| && k <= 2 * limit && (k == 2 * limit || k == |s.index.vectors|)
        && SearchResults(s, query, limit, service, nearest, onDisk) ==
           match nearest(Prepare(e.values, s.dimension), k)
           case None => []
           case Some(ns) => Ranked(Catalog(s.documents, s.docCount, onDisk), ns, limit)
  {
  }

  /**
   * Through `search`, a `limit` below 1 gives no results: the index is asked
   * for `min(2*limit, ntotal) <= 0` neighbours, and an index that returns no
   * more neighbours than asked for (none for a negative count) returns none.
   */
  lemma SearchBelowOneIsEmpty(s: StoreState, query: string, limit: int, service: EmbeddingService,
                              nearest: (Vector, int) -> Option<seq<Neighbour>>, onDisk: set<Path>)
    requires limit < 1
    requires forall v, k :: nearest(v, k).Some? ==> |nearest(v, k).value| <= (if k < 0 then 0 else k)
    ensures SearchResults(s, query, limit, service, nearest, onDisk) == []
  {
    var k := NeighbourCount(limit, |s.index.vectors|);
    assert |s.index.vectors| != 0 ==> k <= 0;
    assert |s.index.vectors| != 0 ==> forall v | nearest(v, k).Some? :: nearest(v, k).value == [];
    assert Ranked(Catalog(s.documents, s.docCount, onDisk), [], limit) == [];
  }

  // ---------------------------------------------------------------------------
  // The store object

  /** The text `__init__` embeds to learn the service's vector width. */
  const ProbeText: string := "test"

  /**
   * The dimension `__init__` settles on: none when the "test" probe is not a
   * list, else the requested one or, when none (0) is requested, the probe's length.
   */
  function ProbedDimension(requestedDimension: nat, service: EmbeddingService): (d: Option<nat>)
    ensures d.None? <==> GetEmbedding(ProbeText, service).NotAVector?
    ensures d.Some? ==> d.value == if requestedDimension != 0 then requestedDimension
                                   else |GetEmbedding(ProbeText, service).values|
  {
    match GetEmbedding(ProbeText, service)
    case NotAVector => None
    case Vector(values) => Some(if requestedDimension != 0 then requestedDimension else |values|)
  }

  /** `VectorStore`: the state of a store instance, updated in place. */
  class Store {
    const dimension: nat
    var index: FlatIndex
    var documents: map<int, Document>
    var docCount: nat
    /** `index.faiss` in the storage directory, if present. */
    var indexFile: Option<FlatIndex>
    /** `documents.pickle` in the storage directory, if present. */
    var documentsFile: Option<SavedDocuments>

    function State(): StoreState
      reads this
    {
      StoreState(dimension, index, documents, docCount, indexFile, documentsFile)
    }

    /** `__init__` once the dimension is known: an empty index, then a load attempt. */
    constructor (dimension: nat, indexFile: Option<FlatIndex>, documentsFile: Option<SavedDocuments>)
      ensures this.dimension == dimension
      ensures State() == AfterLoad(Initial(dimension, indexFile, documentsFile))
    {
      this.dimension := dimension;
      index := FlatIndex(dimension, []);
      documents := map[];
      docCount := 0;
      this.indexFile := indexFile;
      this.documentsFile := documentsFile;
      new;
      LoadIndex();
    }

    /**
     * `__init__`: probe the embedding service with "test"; a probe that is not a
     * list aborts construction. The dimension is the requested one, or (when
     * none, i.e. 0, is requested) the probe's length.
     */
    static method Open(requestedDimension: nat, service: EmbeddingService,
                       indexFile: Option<FlatIndex>, documentsFile: Option<SavedDocuments>)
      returns (store: Option<Store>)
      ensures store.None? <==> GetEmbedding(ProbeText, service).NotAVector?
      ensures store.Some? ==>
        && fresh(store.value)
        && store.value.dimension == (if requestedDimension != 0 then requestedDimension
                                     else |GetEmbedding(ProbeText, service).values|)
        && store.value.State() == AfterLoad(Initial(store.value.dimension, indexFile, documentsFile))
    {
      var dimension := ProbedDimension(requestedDimension, service);
      if dimension.None? {
        return None;
      }
      var s := new Store(dimension.value, indexFile, documentsFile);
      return Some(s);
    }

    /** `add_document`. */
    method AddDocument(filePath: Path, content: string, metadata: Metadata,
                       service: EmbeddingService, timestamp: string)
      returns (added: bool)
      modifies this
      ensures AddResult(State(), added) == AfterAdd(old(State()), filePath, content, metadata, service, timestamp)
    {
      ghost var before := State();
      var embedding := GetEmbedding(content, service);
      if embedding.NotAVector? {
        return false;
      }
      var vector := Prepare(embedding.values, dimension);
      if |vector| != index.d {
        return false;
      }
      var doc := Document(filePath, metadata, Slice(content, SnippetLength), timestamp);
      index := index.(vectors := index.vectors + [vector]);
      var docId := docCount;
      documents := documents[docId := doc];
      docCount := docCount + 1;
      assert State() == Append(before, vector, doc);
      if docCount % SnapshotInterval == 0 {
        SaveIndex();
      }
      return true;
    }

    /** `reset`. */
    method Reset()
      modifies this
      ensures State() == AfterReset(old(State()))
    {
      index := FlatIndex(dimension, []);
      documents := map[];
      docCount := 0;
      indexFile := None;
      documentsFile := None;
    }

    /** `_save_index`. */
    method SaveIndex()
      modifies this
      ensures State() == AfterSave(old(State()))
    {
      indexFile := Some(index);
      documentsFile := Some(SavedDocuments(documents, docCount));
    }

    /** `_load_index`. */
    method LoadIndex()
      modifies this
      ensures State() == AfterLoad(old(State()))
    {
      if indexFile.Some? && documentsFile.Some? {
        index := indexFile.value;
        documents := documentsFile.value.documents;
        docCount := documentsFile.value.docCount;
      }
    }

    /** `search`. */
    method Search(query: string, limit: int, service: EmbeddingService,
                  nearest: (Vector, int) -> Option<seq<Neighbour>>, onDisk: set<Path>)
      returns (results: seq<Hit>)
      ensures results == SearchResults(State(), query, limit, service, nearest, onDisk)
    {
      var queryVector := QueryVector(query, service, dimension);
      if queryVector.None? {
        return [];
      }
      if |index.vectors| == 0 || |queryVector.value| != index.d {
        return [];
      }
      var answer := nearest(queryVector.value, NeighbourCount(limit, |index.vectors|));
      if answer.None? {
        return [];
      }
      results := FormatResults(answer.value, limit, onDisk);
    }

    /** `_format_results`: walk the neighbours in order, skipping, deduplicating and stopping at the limit. */
    method FormatResults(neighbours: seq<Neighbour>, limit: int, onDisk: set<Path>)
      returns (results: seq<Hit>)
      ensures results == Ranked(Catalog(documents, docCount, onDisk), neighbours, limit)
    {
      ghost var c := Catalog(documents, docCount, onDisk);
      results := [];
      var seen: set<Path> := {};
      for i := 0 to |neighbours|
        invariant results == Selected(c, neighbours[..i])
        invariant seen == PathsOf(results)
        invariant |results| < Cap(limit)
      {
        SelectedStep(c, neighbours, i);
        var n := neighbours[i];
        if n.id < 0 || n.id >= docCount || n.id !in documents {
          assert Admit(c, n).None?;
          continue;
        }
        var doc := documents[n.id];
        if doc.filePath in seen || doc.filePath !in onDisk {
          continue;
        }
        var hit := Hit(doc.filePath, Score(n.distance), doc.snippet, doc.metadata);
        assert Admit(c, n) == Some(hit);
        PathsOfSnoc(results, hit);
        seen := seen + {doc.filePath};
        results := results + [hit];
        if |results| >= limit {
          SelectedPrefix(c, neighbours, i + 1);
          return;
        }
      }
      assert neighbours[..|neighbours|] == neighbours;
    }
  }
}
