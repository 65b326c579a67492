/** The vector-store wrapper (services/vectorstore.py): a lazily opened
    Chroma collection with an empty-store fallback, append-then-persist
    insertion, a retriever factory, and the process-wide singleton.

    Chroma itself is opaque: a `Backend` value says what opening the index
    at a directory yields and whether an empty index can be built there.
    The collection is modelled by the chunks it holds; embeddings and
    similarity search are not modelled. */
module VectorStores {
  import opened Outcomes
  import opened Documents
  import opened Sequences

  const DefaultPersistDir: string := "db"

  /** The default `k` of `VectorStore.retriever`. */
  const DefaultK: int := 5

  /** An open Chroma collection: the chunks it holds, and the chunks its
      last `persist()` wrote to disk. */
  datatype Chroma = Chroma(chunks: seq<Document>, persisted: seq<Document>)

  /** `VectorStore`: its persist directory, its resolved API key, and the
      collection, `None` until loaded. */
  datatype VectorStore = VectorStore(persistDir: string, apiKey: Option<string>, vectordb: Option<Chroma>)

  /** An exception raised while opening an index: its type name and message. */
  datatype OpenError = OpenError(exceptionType: string, message: string)

  /** What the Chroma library does at a directory: open the existing index
      (its chunks, or an exception), and build an empty index there. */
  datatype Backend = Backend(
    open: string -> Result<seq<Document>, OpenError>,
    createEmpty: string -> Outcome<string>)

  /** A retriever over the collection stored at `storeDir`, with the `k` of
      its search arguments (`None`: the library's own default). */
  datatype Retriever = Retriever(storeDir: string, searchK: Option<int>)

  /** The recovery strategies `load` can dispatch a failure to. */
  datatype FailureHandler = HandleChromaFailure

  /** The `error_dispatch` table of `load`, keyed by exception type. */
  const ErrorDispatch: map<string, FailureHandler> := map["Exception" := HandleChromaFailure]

  /** `error_dispatch.get(type(e), self._handle_chroma_failure)`. */
  function FailureHandlerFor(exceptionType: string): FailureHandler {
    if exceptionType in ErrorDispatch then ErrorDispatch[exceptionType] else HandleChromaFailure
  }

  /** `VectorStore(persist_dir, api_key)`: the explicit key unless it is
      missing or empty, else the `OPENAI_API_KEY` environment value; the
      collection is not opened yet. */
  function NewVectorStore(envKey: Option<string>, persistDir: string := DefaultPersistDir, apiKey: Option<string> := None)
    : (s: VectorStore)
    ensures s.vectordb.None?
    ensures s.persistDir == persistDir
    ensures s.apiKey.Some? && s.apiKey != envKey ==> s.apiKey == apiKey && apiKey.value != ""
    ensures apiKey.Some? && apiKey.value != "" ==> s.apiKey == apiKey
    ensures !(apiKey.Some? && apiKey.value != "") ==> s.apiKey == envKey
  {
    var key := if apiKey.Some? && apiKey.value != "" then apiKey else envKey;
    VectorStore(persistDir, key, None)
  }

  /** `_handle_chroma_failure`: builds an empty collection in place of the
      one that failed to open; if that raises too, the error propagates. */
  function HandleChromaFailureAt(s: VectorStore, backend: Backend): (r: Result<VectorStore, string>)
    ensures r.Ok? <==> backend.createEmpty(s.persistDir).Pass?
    ensures r.Ok? ==> r.value == s.(vectordb := Some(Chroma([], [])))
  {
    match backend.createEmpty(s.persistDir)
    case Pass => Ok(s.(vectordb := Some(Chroma([], []))))
    case Fail(e) => Err(e)
  }

  /** `load`: opens the index at the persist directory; any exception from
      opening, whatever its type, goes to the empty-store fallback. On
      `Err` the caller's store is left as it was. */
  function Load(s: VectorStore, backend: Backend): (r: Result<VectorStore, string>)
    ensures r.Ok? ==> r.value.vectordb.Some? && r.value.persistDir == s.persistDir && r.value.apiKey == s.apiKey
    ensures backend.open(s.persistDir).Ok? ==> r.Ok? && r.value.vectordb.value.chunks == backend.open(s.persistDir).value
    ensures backend.open(s.persistDir).Err? ==> (r.Ok? <==> backend.createEmpty(s.persistDir).Pass?)
    ensures backend.open(s.persistDir).Err? && r.Ok? ==> r.value.vectordb.value.chunks == []
  {
    match backend.open(s.persistDir)
    case Ok(chunks) => Ok(s.(vectordb := Some(Chroma(chunks, chunks))))
    case Err(e) =>
      match FailureHandlerFor(e.exceptionType)
      case HandleChromaFailure => HandleChromaFailureAt(s, backend)
  }

  /** Two failed opens end in the same place whatever exceptions they
      raised: the fallback does not look at the error. */
  lemma LoadIgnoresErrorKind(s: VectorStore, open1: string -> Result<seq<Document>, OpenError>,
                             open2: string -> Result<seq<Document>, OpenError>, createEmpty: string -> Outcome<string>)
    requires open1(s.persistDir).Err? && open2(s.persistDir).Err?
    ensures Load(s, Backend(open1, createEmpty)) == Load(s, Backend(open2, createEmpty))
  {
  }

  /** Every exception from opening the index, whatever its type, is handed
      to the empty-store fallback: the dispatch table's default and its one
      entry are the same handler. */
  lemma EveryOpenErrorFallsBack(s: VectorStore, backend: Backend)
    requires backend.open(s.persistDir).Err?
    ensures FailureHandlerFor(backend.open(s.persistDir).error.exceptionType) == HandleChromaFailure
    ensures Load(s, backend) == HandleChromaFailureAt(s, backend)
  {
  }

  /** The store itself when already open, otherwise the result of `load`
      (the `if not self.vectordb: self.load()` guard). */
  function EnsureLoaded(s: VectorStore, backend: Backend): (r: Result<VectorStore, string>)
    ensures s.vectordb.Some? ==> r == Ok(s)
    ensures s.vectordb.None? ==> r == Load(s, backend)
    ensures r.Ok? ==> r.value.vectordb.Some? && r.value.persistDir == s.persistDir
  {
    if s.vectordb.None? then Load(s, backend) else Ok(s)
  }

  /** `add_documents`: loads if needed, appends the documents, then persists.
      The collection afterwards holds exactly what it held before (after the
      load) followed by `docs`, and that is what is on disk. */
  function AddDocuments(s: VectorStore, docs: seq<Document>, backend: Backend): (r: Result<VectorStore, string>)
    ensures r.Ok? <==> EnsureLoaded(s, backend).Ok?
    ensures r.Ok? ==>
              && r.value.vectordb.Some?
              && r.value.persistDir == s.persistDir
              && r.value.vectordb.value.chunks == EnsureLoaded(s, backend).value.vectordb.value.chunks + docs
              && r.value.vectordb.value.persisted == r.value.vectordb.value.chunks
    ensures r.Ok? ==> r.value == EnsureLoaded(s, backend).value.(vectordb := r.value.vectordb)
    ensures r.Ok? && s.vectordb.Some? ==> |r.value.vectordb.value.chunks| == |s.vectordb.value.chunks| + |docs|
  {
    match EnsureLoaded(s, backend)
    case Err(e) => Err(e)
    case Ok(loaded) =>
      var appended := loaded.vectordb.value.chunks + docs;
      var persisted := appended;
      Ok(loaded.(vectordb := Some(Chroma(appended, persisted))))
  }

  /** Successive `add_documents` calls, stopping at the first that raises. */
  function AddAll(s: VectorStore, batches: seq<seq<Document>>, backend: Backend): Result<VectorStore, string>
    decreases |batches|
  {
    if |batches| == 0 then Ok(s)
    else match AddAll(s, batches[..|batches| - 1], backend)
      case Err(e) => Err(e)
      case Ok(s') => AddDocuments(s', batches[|batches| - 1], backend)
  }

  /** On an open store insertion never fails and the store grows
      monotonically: after N calls it holds its old chunks followed by every
      batch in call order, so its size is the old size plus all batch sizes. */
  lemma {:induction false} AddAllGrows(s: VectorStore, batches: seq<seq<Document>>, backend: Backend)
    requires s.vectordb.Some?
    ensures AddAll(s, batches, backend).Ok?
    ensures AddAll(s, batches, backend).value.vectordb.Some?
    ensures AddAll(s, batches, backend).value.vectordb.value.chunks == s.vectordb.value.chunks + Flatten(batches)
    ensures |AddAll(s, batches, backend).value.vectordb.value.chunks| == |s.vectordb.value.chunks| + TotalLength(batches)
    decreases |batches|
  {
    if |batches| > 0 {
      var init := batches[..|batches| - 1];
      AddAllGrows(s, init, backend);
      var s' := AddAll(s, init, backend).value;
      assert s.vectordb.value.chunks + Flatten(init) + batches[|batches| - 1]
          == s.vectordb.value.chunks + Flatten(batches);
    }
    FlattenLength(batches);
  }

  /** `retriever(k=5)`: loads if needed and hands `k` to the collection's
      retriever factory unchanged. */
  function GetRetriever(s: VectorStore, backend: Backend, k: int := DefaultK): (r: Result<(VectorStore, Retriever), string>)
    ensures r.Ok? <==> EnsureLoaded(s, backend).Ok?
    ensures r.Ok? ==> r.value.0 == EnsureLoaded(s, backend).value
    ensures r.Ok? ==> r.value.0.vectordb.Some? && r.value.1 == Retriever(s.persistDir, Some(k))
    ensures s.vectordb.Some? ==> r.Ok? && r.value.0 == s
  {
    match EnsureLoaded(s, backend)
    case Err(e) => Err(e)
    case Ok(loaded) => Ok((loaded, Retriever(loaded.persistDir, Some(k))))
  }

  /** `get_vectorstore`: on first use, constructs a store with the default
      directory, publishes it, then loads it; afterwards returns the
      published instance untouched. The instance is published before
      loading, so a load that raises leaves an unloaded singleton behind. */
  function GetVectorStore(instance: Option<VectorStore>, envKey: Option<string>, backend: Backend)
    : (r: (Option<VectorStore>, Result<VectorStore, string>))
    ensures instance.Some? ==> r == (instance, Ok(instance.value))
    ensures r.0.Some?
    ensures r.1.Ok? ==> r.0 == Some(r.1.value)
    ensures instance.None? ==> r.0.value.persistDir == DefaultPersistDir
    ensures instance.None? && r.1.Ok? ==> r.1.value.vectordb.Some?
    ensures instance.None? && r.1.Err? ==> r.0.value.vectordb.None?
    ensures instance.None? ==> r.1 == Load(NewVectorStore(envKey), backend)
                               && (r.1.Err? ==> r.0 == Some(NewVectorStore(envKey)))
  {
    if instance.Some? then (instance, Ok(instance.value))
    else
      var created := NewVectorStore(envKey);
      match Load(created, backend)
      case Ok(loaded) => (Some(loaded), Ok(loaded))
      case Err(e) => (Some(created), Err(e))
  }

  /** Construction and loading happen once: whatever the environment and
      the backend at a later call, it returns the instance the first call
      published and leaves the singleton as it was. */
  lemma GetVectorStoreOnce(envKey1: Option<string>, backend1: Backend,
                                              envKey2: Option<string>, backend2: Backend)
    ensures var (g, first) := GetVectorStore(None, envKey1, backend1);
            var (g', second) := GetVectorStore(g, envKey2, backend2);
            g' == g && second == Ok(g.value) && (first.Ok? ==> second == first)
  {
  }
}
