/** Retriever resolution and the QA-chain global (services/rag_service.py).

    A "store-like" object is observed only through the three attributes the
    resolver probes; each probe sees the attribute absent, or present with
    the value its call returned (possibly `None`). Building the language
    model and the RetrievalQA chain is opaque: a chain is recorded by the
    configuration it was built with. */
module RagService {
  import opened Outcomes
  import VectorStores

  type Retriever = VectorStores.Retriever

  /** One attribute as `hasattr` and a call see it: `None` when absent,
      otherwise `Some` of what calling it returned. */
  type Probe = Option<Option<Retriever>>

  /** The object found at `vs.vectordb`: only its `as_retriever` matters. */
  datatype InnerShape = InnerShape(asRetriever: Probe)

  /** A store-like object: its truthiness, its `as_retriever` and
      `retriever` attributes, and its `vectordb` attribute, if any. */
  datatype StoreShape = StoreShape(truthy: bool, asRetriever: Probe, retrieverMethod: Probe, vectordb: Option<InnerShape>)

  /** The exceptions this module raises. */
  datatype RagError = AttributeError(message: string) | ValueError(message: string)

  const NoRetrieverMessage: string := "Vectorstore has no compatible retriever method."
  const MissingStoreMessage: string := "Vectorstore must be provided to build QA chain"

  /** The three `try_*` probes. */
  datatype Strategy = TryAsRetriever | TryRetrieverMethod | TryVectordbAsRetriever

  /** The order in which `get_retriever_dispatch` tries the probes. */
  const Strategies: seq<Strategy> := [TryAsRetriever, TryRetrieverMethod, TryVectordbAsRetriever]

  /** Calls an attribute if present; an absent attribute yields `None`. */
  function CallIfPresent(p: Probe): Option<Retriever> {
    match p
    case None => None
    case Some(result) => result
  }

  /** One probe: a retriever only when its attribute exists and its call
      returned one; the third needs both `vectordb` and, on it, `as_retriever`.
      Conversely, a present attribute yields whatever its call returned. */
  function TryStrategy(s: Strategy, vs: StoreShape): (r: Option<Retriever>)
    ensures r.Some? && s == TryAsRetriever ==> vs.asRetriever == Some(r)
    ensures r.Some? && s == TryRetrieverMethod ==> vs.retrieverMethod == Some(r)
    ensures r.Some? && s == TryVectordbAsRetriever ==> vs.vectordb.Some? && vs.vectordb.value.asRetriever == Some(r)
    ensures s == TryAsRetriever && vs.asRetriever.Some? ==> r == vs.asRetriever.value
    ensures s == TryRetrieverMethod && vs.retrieverMethod.Some? ==> r == vs.retrieverMethod.value
    ensures s == TryVectordbAsRetriever && vs.vectordb.Some? && vs.vectordb.value.asRetriever.Some? ==>
              r == vs.vectordb.value.asRetriever.value
  {
    match s
    case TryAsRetriever => CallIfPresent(vs.asRetriever)
    case TryRetrieverMethod => CallIfPresent(vs.retrieverMethod)
    case TryVectordbAsRetriever =>
      if vs.vectordb.Some? then CallIfPresent(vs.vectordb.value.asRetriever) else None
  }

  /** The first probe of `strategies`, in order, that yields a retriever. */
  function FirstHit(strategies: seq<Strategy>, vs: StoreShape): (r: Option<Retriever>)
    ensures r.None? <==> forall i :: 0 <= i < |strategies| ==> TryStrategy(strategies[i], vs).None?
    ensures r.Some? ==> exists i :: 0 <= i < |strategies| && TryStrategy(strategies[i], vs) == r
                          && forall j :: 0 <= j < i ==> TryStrategy(strategies[j], vs).None?
    decreases |strategies|
  {
    if |strategies| == 0 then None
    else match TryStrategy(strategies[0], vs)
      case Some(h) => Some(h)
      case None =>
        var rest := FirstHit(strategies[1..], vs);
        assert forall i :: 1 <= i < |strategies| ==> strategies[i] == strategies[1..][i - 1];
        rest
  }

  /** `get_retriever_dispatch`: `as_retriever()` if it yields a retriever,
      else `retriever()`, else `vectordb.as_retriever()`; an
      `AttributeError` when none does. */
  function GetRetrieverDispatch(vs: StoreShape): (r: Result<Retriever, RagError>)
    ensures r.Err? <==> TryStrategy(TryAsRetriever, vs).None? && TryStrategy(TryRetrieverMethod, vs).None?
                        && TryStrategy(TryVectordbAsRetriever, vs).None?
    ensures r.Err? ==> r.error == AttributeError(NoRetrieverMessage)
    ensures r.Ok? ==>
              || TryStrategy(TryAsRetriever, vs) == Some(r.value)
              || (TryStrategy(TryAsRetriever, vs).None? && TryStrategy(TryRetrieverMethod, vs) == Some(r.value))
              || (TryStrategy(TryAsRetriever, vs).None? && TryStrategy(TryRetrieverMethod, vs).None?
                  && TryStrategy(TryVectordbAsRetriever, vs) == Some(r.value))
  {
    match FirstHit(Strategies, vs)
    case Some(h) => Ok(h)
    case None =>
      assert TryStrategy(Strategies[0], vs).None? && TryStrategy(Strategies[1], vs).None?
             && TryStrategy(Strategies[2], vs).None?;
      Err(AttributeError(NoRetrieverMessage))
  }

  /** A store whose `as_retriever()` yields a retriever is resolved by it,
      whatever its other attributes hold: they are never consulted. */
  lemma FirstProbeShortCircuits(vs: StoreShape, h: Retriever, other: StoreShape)
    requires vs.asRetriever == Some(Some(h))
    ensures GetRetrieverDispatch(vs) == Ok(h)
    ensures GetRetrieverDispatch(vs.(retrieverMethod := other.retrieverMethod, vectordb := other.vectordb)) == Ok(h)
  {
  }

  /** A probe that is absent or returns `None` falls through: the result is
      what the remaining probes give. */
  lemma FirstProbeFallsThrough(vs: StoreShape)
    requires vs.asRetriever.None? || vs.asRetriever == Some(None)
    ensures GetRetrieverDispatch(vs) == GetRetrieverDispatch(vs.(asRetriever := None))
  {
  }

  /** A store offering only `retriever()` resolves to what it returns. */
  lemma OnlyRetrieverMethodResolves(truthy: bool, h: Retriever)
    ensures GetRetrieverDispatch(StoreShape(truthy, None, Some(Some(h)), None)) == Ok(h)
  {
    assert TryStrategy(TryAsRetriever, StoreShape(truthy, None, Some(Some(h)), None)).None?;
  }

  /** A store offering only `vectordb.as_retriever()` resolves to what it returns. */
  lemma OnlyVectordbResolves(truthy: bool, h: Retriever)
    ensures GetRetrieverDispatch(StoreShape(truthy, None, None, Some(InnerShape(Some(Some(h)))))) == Ok(h)
  {
    var vs := StoreShape(truthy, None, None, Some(InnerShape(Some(Some(h)))));
    assert TryStrategy(TryAsRetriever, vs).None? && TryStrategy(TryRetrieverMethod, vs).None?;
  }

  /** A store offering none of the three, or a `vectordb` without
      `as_retriever`, has no compatible retriever. */
  lemma NoCapabilityRaises(truthy: bool, inner: Option<InnerShape>)
    requires inner.None? || inner.value.asRetriever.None?
    ensures GetRetrieverDispatch(StoreShape(truthy, None, None, inner)) == Err(AttributeError(NoRetrieverMessage))
  {
    var vs := StoreShape(truthy, None, None, inner);
    assert TryStrategy(TryAsRetriever, vs).None? && TryStrategy(TryRetrieverMethod, vs).None?
           && TryStrategy(TryVectordbAsRetriever, vs).None?;
  }

  // ---------------------------------------------------------------------------
  // The QA chain

  const ModelName: string := "gpt-3.5-turbo"
  const ChainType: string := "stuff"

  /** A RetrievalQA chain, recorded by the configuration it was built with. */
  datatype QaChain = QaChain(
    modelName: string, temperature: int, apiKey: Option<string>,
    chainType: string, retriever: Retriever, returnSourceDocuments: bool)

  /** `_qa_chain` at import time. */
  const InitialQaChain: Option<QaChain> := None

  /** `build_qa_chain`: rejects a falsy store, resolves its retriever, and
      only then writes the global. Returns the new value of `_qa_chain`
      and whether the call completed or raised. */
  function BuildQaChain(current: Option<QaChain>, apiKey: Option<string>, vectorstore: Option<StoreShape>)
    : (r: (Option<QaChain>, Outcome<RagError>))
    ensures r.1.Fail? ==> r.0 == current
    ensures (vectorstore.None? || !vectorstore.value.truthy) ==> r.1 == Fail(ValueError(MissingStoreMessage))
    ensures vectorstore.Some? && vectorstore.value.truthy && GetRetrieverDispatch(vectorstore.value).Err? ==>
              r.1 == Fail(AttributeError(NoRetrieverMessage))
    ensures vectorstore.Some? && vectorstore.value.truthy && GetRetrieverDispatch(vectorstore.value).Ok? ==> r.1.Pass?
    ensures r.1.Pass? ==>
              && vectorstore.Some? && GetRetrieverDispatch(vectorstore.value).Ok?
              && r.0 == Some(QaChain(ModelName, 0, apiKey, ChainType, GetRetrieverDispatch(vectorstore.value).value, true))
  {
    if vectorstore.None? || !vectorstore.value.truthy then
      (current, Fail(ValueError(MissingStoreMessage)))
    else
      match GetRetrieverDispatch(vectorstore.value)
      case Err(e) => (current, Fail(e))
      case Ok(retriever) =>
        (Some(QaChain(ModelName, 0, apiKey, ChainType, retriever, true)), Pass)
  }

  /** `get_qa_chain`: the current value of the global; reading it never
      builds a chain or changes the global. */
  function GetQaChain(global: Option<QaChain>): (r: Option<QaChain>)
    ensures r == global
  {
    global
  }

  /** The arguments of one `build_qa_chain` call. */
  datatype BuildCall = BuildCall(apiKey: Option<string>, vectorstore: Option<StoreShape>)

  /** Whether a call completes; this does not depend on the global it finds. */
  predicate Completes(c: BuildCall) {
    BuildQaChain(InitialQaChain, c.apiKey, c.vectorstore).1.Pass?
  }

  /** The chain a call installs: `None` for a call that raises. */
  function Installed(c: BuildCall): Option<QaChain> {
    BuildQaChain(InitialQaChain, c.apiKey, c.vectorstore).0
  }

  /** A call installs its chain if it completes and otherwise leaves the
      global it finds untouched. */
  lemma BuildStep(current: Option<QaChain>, c: BuildCall)
    ensures Completes(c) <==> Installed(c).Some?
    ensures BuildQaChain(current, c.apiKey, c.vectorstore).0 == if Completes(c) then Installed(c) else current
  {
  }

  /** `_qa_chain` after a sequence of `build_qa_chain` calls, each of which
      may raise (the caller carries on). */
  function AfterBuilds(calls: seq<BuildCall>): (r: Option<QaChain>)
    ensures r.Some? ==> r.value.modelName == ModelName && r.value.temperature == 0
                        && r.value.chainType == ChainType && r.value.returnSourceDocuments
    decreases |calls|
  {
    if |calls| == 0 then InitialQaChain
    else
      var last := calls[|calls| - 1];
      BuildQaChain(AfterBuilds(calls[..|calls| - 1]), last.apiKey, last.vectorstore).0
  }

  function InstalledAll(calls: seq<BuildCall>): (r: seq<Option<QaChain>>)
    ensures |r| == |calls| && forall i :: 0 <= i < |calls| ==> r[i] == Installed(calls[i])
  {
    seq(|calls|, i requires 0 <= i < |calls| => Installed(calls[i]))
  }

  lemma {:induction false} AfterBuildsFolds(calls: seq<BuildCall>)
    ensures AfterBuilds(calls) == LastSome(InstalledAll(calls), None)
    decreases |calls|
  {
    if |calls| > 0 {
      var n := |calls| - 1;
      AfterBuildsFolds(calls[..n]);
      BuildStep(AfterBuilds(calls[..n]), calls[n]);
      assert InstalledAll(calls)[..n] == InstalledAll(calls[..n]);
    }
  }

  /** Relates each build's completion to the chain it would install. */
  lemma InstalledAllCompletes(calls: seq<BuildCall>)
    ensures forall i :: 0 <= i < |calls| ==> (Completes(calls[i]) <==> InstalledAll(calls)[i].Some?)
  {
    forall i | 0 <= i < |calls|
      ensures Completes(calls[i]) <==> InstalledAll(calls)[i].Some?
    {
      BuildStep(InitialQaChain, calls[i]);
    }
  }

  /** `get_qa_chain` returns `None` exactly as long as no build has completed. */
  lemma {:induction false} AfterBuildsNoneUntilCompleted(calls: seq<BuildCall>)
    ensures GetQaChain(AfterBuilds(calls)).None? <==> forall i :: 0 <= i < |calls| ==> !Completes(calls[i])
  {
    AfterBuildsFolds(calls);
    InstalledAllCompletes(calls);
    LastSomeNone(InstalledAll(calls));
  }

  /** Once some build has completed, `get_qa_chain` returns the chain of the
      last build that completed: failed builds never disturb it. */
  lemma {:induction false} AfterBuildsIsLastCompleted(calls: seq<BuildCall>)
    ensures GetQaChain(AfterBuilds(calls)).Some? ==>
              exists i :: 0 <= i < |calls| && Completes(calls[i]) && AfterBuilds(calls) == Installed(calls[i])
                          && forall j :: i < j < |calls| ==> !Completes(calls[j])
  {
    AfterBuildsFolds(calls);
    var xs := InstalledAll(calls);
    InstalledAllCompletes(calls);
    if LastSome(xs, None).Some? {
      var i := LastSomeWitness(xs);
      assert Completes(calls[i]) && AfterBuilds(calls) == Installed(calls[i]);
      assert forall j :: i < j < |calls| ==> !Completes(calls[j]);
    }
  }
}
