# RAG_Compliant ingestion and retrieval core, modelled in Dafny

This project models the decision logic of a retrieval-augmented question-answering service.
The service ingests documents, indexes them in a Chroma vector store and answers queries through a RetrievalQA chain.
The parsing libraries, Chroma, OpenAI and the HTTP framework are opaque collaborators.
What remains is sequential and deterministic, and it is modelled as pure functions over immutable datatypes:

- `answers.dfy` (module `Answers`): the `/ask` route. It checks the chain guard, dispatches on the exact type of the chain's result, and de-duplicates sources in first-seen order.
- `doc_loader.dfy` (module `DocLoader`): metadata stamping, and the extension table keyed by the lower-cased `PurePath.suffix`. It also covers the five handlers and the `load_documents` walk with per-file error isolation.
- `vectorstore.dfy` (module `VectorStores`): the lazily loaded store with its empty-store fallback, append-then-persist insertion, the retriever factory with `k = 5`, and the `get_vectorstore` singleton.
- `rag_service.dfy` (module `RagService`): the three retriever probes, tried in a fixed order, and `build_qa_chain`, which validates and resolves before it writes the `_qa_chain` global.
- `outcomes.dfy`, `documents.dfy` and `sequences.dfy` hold the shared `Option`/`Result`/`Outcome` types, the `Document` record and sequence helpers.

Foreign calls become parameters:

- `DocLoader.Library` says what each loader and `textract` returns or raises for a path.
- `VectorStores.Backend` says what opening the index yields and whether an empty index can be built.
- `AskQuestion`'s `invoke` is the chain's `ainvoke`.
- A store-like object is seen by the resolver only through the attributes it probes (`RagService.StoreShape`).
- Module globals (`_qa_chain`, `_vectorstore_instance`) are explicit state values that the functions take and return.

Three behaviours of the code are easy to misread, and the model follows the code in each:

- A caller might expect `load` never to raise, since failures fall back to an empty store. In the code, if the fallback `Chroma.from_documents([])` itself raises, the error propagates out of `load`. `VectorStores.Load` returns `Err` in that case.
- `get_vectorstore` publishes the new instance before loading it. If that load raises, the global keeps an unloaded instance, and later calls return it without loading (`GetVectorStore`).
- `load_documents` only yields documents; it neither chunks nor inserts them. `DocLoader.LoadDocuments` models exactly that.

## Model

| member | source | states |
|---|---|---|
| Answers.SourceOf | answers.py:58 | A document with a `source` entry is read as citing exactly that value; one without it reads as `"unknown"`. |
| Answers.CandidateSources | answers.py:57-59 | Every `Document` item's source is a candidate and every candidate is some `Document` item's source; other items contribute nothing, so there are never more candidates than items. |
| Answers.StampedSourceReadBack | answers.py:57-62 | Documents stamped by `add_metadata` with a file name are read back as that name, and any non-empty run of them is listed as that one source. |
| Answers.HandleDictResult | answers.py:50-64 | A missing `result` gives answer `""` and a missing `source_documents` gives no sources. Non-`Document` items are skipped and a document without `source` counts as `"unknown"`. The sources have no repeats, hold exactly the values of the documents' sources, and follow first-occurrence order. |
| Answers.FirstSeenMembers | answers.py:57-62 | A value appears in the de-duplicated list if and only if some input source has it. |
| Answers.FirstSeenNoDuplicates | answers.py:55-62 | The de-duplicated list never holds the same source twice. |
| Answers.FirstSeenOrder | answers.py:57-62 | Earlier entries of the de-duplicated list first occur earlier in the input. |
| Answers.FirstSeenCharacterised | answers.py:55-62 | Any list with exactly the input's values, in first-occurrence order, is the de-duplicated list. The properties above therefore determine it completely. |
| Answers.FirstSeenStep | answers.py:60-62 | One more input value is appended to the output exactly when it has not been seen before. |
| Answers.DedupExample | answers.py:55-62 | Sources `a.pdf, b.pdf, a.pdf` become `a.pdf, b.pdf`. |
| Answers.HandleStrResult | answers.py:67-68 | A string result is the answer verbatim, with no sources. |
| Answers.AskQuestion | answers.py:81-95 | An unbuilt chain gives 503 whatever the chain would return. A result of any type other than exactly `dict` or `str` gives 500 naming the type. A `str` result is passed through unchanged. A `dict` result gets de-duplicated sources. |
| DocLoader.AddMetadata | services/doc_loader.py:44-47 | Every document gets `source = filename`. Count, order, content and every other metadata entry are unchanged. |
| DocLoader.AddMetadataLastWins | services/doc_loader.py:44-47 | Stamping overwrites: stamping twice equals stamping once with the later name. |
| DocLoader.Suffix | services/doc_loader.py:68 | The extension is non-empty exactly when the name has a last dot that is neither its first nor its last character. It is then the tail from that dot, with no further dot. |
| DocLoader.SuffixLowerCommutes | services/doc_loader.py:68 | Lower-casing the extension gives the same result as taking the extension of the lower-cased name. |
| DocLoader.HandlerFor | services/doc_loader.py:68-72 | A name has a handler exactly when its lower-cased extension is a table key, and it is that key's handler; a handler implies a non-empty extension, and the Excel handler implies Excel support. |
| DocLoader.DispatchIgnoresCase | services/doc_loader.py:68-72 | Names equal up to case get the same handler, so `X.PDF` is handled like `x.pdf`. |
| DocLoader.ExtensionDispatcher | services/doc_loader.py:50-60 | The table holds exactly `.pdf`, `.docx`, `.doc`, `.txt`, `.md` and `.rtf`, plus `.xlsx` exactly when Excel support is on. `.pdf`, `.docx` and `.doc` map to their own handlers, the three text-like extensions share one, and `.xlsx` maps to the Excel handler. Every key is a lower-case, well-formed extension, so each one can be reached. |
| DocLoader.KnownExtensionsDispatch | services/doc_loader.py:50-72 | Any non-empty stem followed by one of the seven extensions reaches that extension's handler. `.xlsx` has no handler when Excel support is off. |
| DocLoader.DispatchByExtension | services/doc_loader.py:68-73 | A file named stem plus a table extension, in any case, is handled by that extension's handler. |
| DocLoader.HandleDocFile | services/doc_loader.py:26-30 | Empty text gives no document. Non-empty text gives exactly one document, whose content is the text and whose metadata is exactly `{source: filename}`. Extraction or decode failures propagate. |
| DocLoader.HandleExcelFile | services/doc_loader.py:32-37 | With Excel support off the result is empty and never an error. With it on, the loader's failure propagates, and on success the result is the loader's documents stamped with the file name. |
| DocLoader.RunHandler | services/doc_loader.py:16-42 | Every document any handler returns has the file name as its source. A loader-backed handler raises exactly when its loader does and otherwise returns the loader's documents stamped with the file name; `.doc` goes to `HandleDocFile`. |
| DocLoader.FileDocuments | services/doc_loader.py:64-79 | Only a regular file with a table extension can contribute documents. Such a file whose handler completes contributes exactly the handler's documents. |
| DocLoader.FileDocumentsCited | services/doc_loader.py:64-79 | A path contributes documents only if it is a regular file with a table extension whose handler completed. Those documents are the handler's own, each citing the file. |
| DocLoader.LoadDocuments | services/doc_loader.py:63-79 | The output is each file's contribution concatenated in enumeration order. Every output document cites a regular file of the walk. |
| DocLoader.IngestedAppend | services/doc_loader.py:64-77 | Walking `a + b` yields the output for `a` followed by the output for `b`. |
| DocLoader.FailedFileIsolated | services/doc_loader.py:72-79 | A file whose handler raises, that is skipped, or that has an unknown extension removes only its own output. The files before and after it are unaffected. |
| DocLoader.SuccessfulFileIngested | services/doc_loader.py:64-77 | A regular file with a table extension whose handler completes yields exactly the handler's documents, in place between the output of the files before and after it. |
| DocLoader.IngestedAround | services/doc_loader.py:64-79 | Each path's contribution sits between the output of the paths before it and of the paths after it. |
| DocLoader.SkippedContributesNothing | services/doc_loader.py:66-79 | A directory, a name with no table extension, or a file whose handler raises contributes no documents. |
| DocLoader.IngestedSourced | services/doc_loader.py:63-79 | Every ingested document names a regular file of the walk as its source. |
| VectorStores.NewVectorStore | services/vectorstore.py:8-12 | A new store is unloaded and keeps its directory. An explicit non-empty key wins; otherwise the environment key is used. |
| VectorStores.HandleChromaFailureAt | services/vectorstore.py:14-17 | The fallback completes exactly when an empty index can be built, and it then leaves the store loaded and empty. |
| VectorStores.Load | services/vectorstore.py:19-29 | After a successful load the store is loaded. An index that opens gives its chunks. A failed open succeeds exactly when the fallback does, and the store is then empty. |
| VectorStores.EveryOpenErrorFallsBack | services/vectorstore.py:21-28 | Whatever exception type opening raises, the dispatch table yields the empty-store fallback, and `load` is exactly that fallback. |
| VectorStores.LoadIgnoresErrorKind | services/vectorstore.py:21-28 | Every exception type from opening leads to the same fallback outcome. |
| VectorStores.EnsureLoaded | services/vectorstore.py:32-33 | A loaded store is used as is. Otherwise the outcome is exactly that of `load` on it. |
| VectorStores.AddDocuments | services/vectorstore.py:31-35 | An unloaded store is loaded first. The contents become the previous contents followed by the new documents, and they are persisted. Nothing else about the store changes. On a loaded store the size grows by exactly the number added. |
| VectorStores.AddAllGrows | services/vectorstore.py:31-35 | On a loaded store, N calls never fail. The store ends with its old chunks followed by every batch in order, so its size is the old size plus the sum of the batch sizes. |
| VectorStores.GetRetriever | services/vectorstore.py:37-40 | The store is loaded if needed, exactly as `EnsureLoaded` does, and the retriever carries `k` unchanged (default 5). A loaded store is left untouched. |
| VectorStores.GetVectorStore | services/vectorstore.py:42-50 | The first call constructs a store with directory `db`, publishes it and loads it; its outcome is exactly that of `load` on the new store. Later calls return the published instance unchanged. If the first load raises, an unloaded instance stays published. |
| VectorStores.GetVectorStoreOnce | services/vectorstore.py:45-50 | After the first call, any later call returns the same instance and leaves the singleton unchanged, whatever the backend, so nothing is reloaded. |
| RagService.TryStrategy | services/rag_service.py:9-22 | A probe yields a retriever only when its attribute exists and its call returned one. The third probe also needs `vectordb` and `as_retriever` on it. Conversely, a present attribute yields exactly what its call returned. |
| RagService.FirstHit | services/rag_service.py:31-34 | The result is that of the first probe in list order that yields a retriever; all earlier probes yielded none. It is `None` exactly when no probe yields one. |
| RagService.GetRetrieverDispatch | services/rag_service.py:24-36 | `as_retriever` is tried first, then `retriever`, then `vectordb.as_retriever`, and the first non-`None` result wins. If all three yield nothing, the result is an `AttributeError` with the source's message. |
| RagService.OnlyRetrieverMethodResolves | services/rag_service.py:14-34 | A store that offers only `retriever()` resolves to what that call returns. |
| RagService.OnlyVectordbResolves | services/rag_service.py:19-34 | A store that offers only `vectordb.as_retriever()` resolves to what that call returns. |
| RagService.NoCapabilityRaises | services/rag_service.py:24-36 | A store with none of the three, or with a `vectordb` lacking `as_retriever`, raises `AttributeError` with the source's message. |
| RagService.FirstProbeShortCircuits | services/rag_service.py:24-34 | If `as_retriever()` yields a retriever, that is the result, whatever the other attributes hold. |
| RagService.FirstProbeFallsThrough | services/rag_service.py:9-12 | An absent `as_retriever`, or one that returns `None`, leaves the result to the later probes. |
| RagService.BuildQaChain | services/rag_service.py:40-53 | A falsy store raises `ValueError`. A failed resolution raises `AttributeError`. In both cases `_qa_chain` is unchanged. A truthy store whose retriever resolves always completes. On success the global holds a `gpt-3.5-turbo`, temperature 0, "stuff" chain that returns source documents and uses the resolved retriever. |
| RagService.GetQaChain | services/rag_service.py:55-56 | Reading the chain returns the global as it stands and never builds or changes it. |
| RagService.AfterBuilds | services/rag_service.py:5-53 | Whatever builds have run, a chain in the global is always a `gpt-3.5-turbo`, temperature 0, "stuff" chain that returns source documents. |
| RagService.BuildStep | services/rag_service.py:40-53 | Whether a build completes does not depend on the global it finds. A completed build installs its chain, and a failed build leaves the global unchanged. |
| RagService.AfterBuildsFolds | services/rag_service.py:5-53 | The global after a run of builds is the chain of the last build that installed one, or `None` when none did. |
| RagService.AfterBuildsNoneUntilCompleted | services/rag_service.py:5-56 | `get_qa_chain` returns `None` exactly as long as no build has completed. |
| RagService.AfterBuildsIsLastCompleted | services/rag_service.py:5-56 | Once some build has completed, `get_qa_chain` returns the chain of the last build that completed. Failed builds never change it. |

## Left out

- `split_documents` is left out. It calls langchain's `RecursiveCharacterTextSplitter`, whose algorithm is not part of this model, so no chunk count, size or overlap property is claimed.
- The `/history` endpoint and `models.py` are left out: an ORM schema and a SQL query, with no decision logic.
- Parsing by PyPDF, Docx2txt, Unstructured, the Excel loader and textract is opaque (`DocLoader.Library`). A UTF-8 decode failure is one kind of textract failure.
- Chroma and OpenAI internals are left out: embeddings, similarity search, the on-disk format, and what `persist()` writes beyond "the current chunks".
- The retriever handle refers to the store by directory and search `k`; the search itself is not modelled.
- `ChatOpenAI`, `RetrievalQA.from_chain_type` and `ainvoke` are opaque. A chain is recorded by its configuration, and invoking it is the `invoke` parameter.
- FastAPI lifespan wiring, async execution, `.env` loading and `print` logging are I/O and framework plumbing.
- Pydantic validation of `QueryResponse` is left out: a non-string `result` value in a dict result would fail validation. Sources are modelled as names; the response wraps each as `{"source": name}`.
- `load_documents` is a generator. The model returns the whole sequence. Each handler returns a complete list before anything is yielded, so a failing file never yields part of its output.
- DocLoader.LoadDocuments: the walk is given as a finished list of paths, each known to be a regular file or not. Enumerating the tree (`rglob`) and testing a path (`is_file`) happen outside the per-file `try` in the code, so an error there (a permission error from `stat`, say) would end the whole walk; such failures are not modelled.
- `except Exception` does not catch `BaseException` subclasses such as `KeyboardInterrupt`. Such exceptions are not modelled.
- DocLoader.Lower: `str.lower()` is modelled for ASCII letters only. Unicode case mappings are not modelled.
- DocLoader.Suffix: the model follows the `PurePath.suffix` rule of Python up to 3.13 (the last dot must be neither first nor last). Later Python versions treat a trailing dot differently.
- VectorStores.AddDocuments: does not model a failure of the embedding call or of `persist()`. Those are Chroma/OpenAI behaviour, and the model assumes insertion succeeds once the store is loaded.
- VectorStores.NewVectorStore: does not model `OpenAIEmbeddings` raising at construction, for example when no API key is available.
- VectorStores.EnsureLoaded: the model treats any opened collection as loaded and reads `if not self.vectordb` as "no collection yet". If a Chroma collection is falsy when empty, as a length-based truthiness would make it, the code would call `load()` again on an open but empty collection. That reload is not modelled.
- VectorStores.GetRetriever: "a loaded store is left untouched" rests on the same reading of the guard. An open but empty collection would be reloaded by the code.
- VectorStores.AddAllGrows: "on an open store N calls never fail" rests on the same reading. With an empty open collection and empty batches, the code would reload before each insertion, and that reload could fail.
- VectorStores.HandleChromaFailureAt: the fallback collection is assumed empty, as the comment at services/vectorstore.py:15 describes it. `Chroma.from_documents([])` adds no documents but is built at the directory that failed to open, so whatever Chroma finds there is not modelled.
- RagService.TryStrategy: an exception raised by a probe's own call, or by an attribute lookup other than an `AttributeError`, is not modelled. Such an exception would propagate out of `get_retriever_dispatch`.
- RagService.BuildQaChain: does not model `ChatOpenAI` raising at construction. That happens before resolution and would also leave `_qa_chain` unchanged.
- RagService.BuildQaChain: does not model `RetrievalQA.from_chain_type` raising after the retriever resolved. Such a call would leave `_qa_chain` unchanged and raise, where the model reports that it completed; chain construction is langchain's behaviour.
- Answers.AskQuestion: does not model `ainvoke` raising. Such an exception propagates out of `ask_question` (the framework answers 500), whereas the model's `invoke` parameter always returns a result; what the chain raises is OpenAI and langchain behaviour.
