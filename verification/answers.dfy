/** Normalising the QA chain's result into the `/ask` response (answers.py).

    The chain's raw result is tagged by its exact runtime type: a `dict`, a
    `str`, or anything else (a subclass of `dict` or `str` counts as
    anything else, because the handler table is looked up by exact type). */
module Answers {
  import opened Outcomes
  import opened Documents
  import RagService
  import DocLoader

  /** An element of the `source_documents` list: a `Document` instance or
      some other object. */
  datatype SourceItem = DocItem(doc: Document) | OtherItem

  /** The two keys of a dict result that the handler reads, each possibly absent. */
  datatype ResultDict = ResultDict(result: Option<string>, sourceDocuments: Option<seq<SourceItem>>)

  /** The chain's raw result, tagged by its exact runtime type. */
  datatype ChainResult =
    | DictResult(fields: ResultDict)
    | StrResult(text: string)
    | OtherResult(typeName: string)

  /** `QueryResponse`: the answer and the distinct source names, each of
      which the response wraps as `{"source": name}`. */
  datatype QueryResponse = QueryResponse(answer: string, sources: seq<string>)

  /** An `HTTPException`: status code and detail. */
  datatype HttpError = HttpError(status: int, detail: string)

  const UnknownSource: string := "unknown"
  const NotInitialized: HttpError := HttpError(503, "QA chain not initialized")

  /** The 500 error for an unsupported result type, named as Python prints a class. */
  function UnsupportedType(typeName: string): HttpError {
    HttpError(500, "Unsupported result type: <class '" + typeName + "'>")
  }

  /** A document's `source` metadata, or "unknown" when it has none. */
  function SourceOf(d: Document): (r: string)
    ensures SourceKey in d.metadata <==> HasSource(d, r)
    ensures SourceKey !in d.metadata ==> r == UnknownSource
  {
    if SourceKey in d.metadata then d.metadata[SourceKey] else UnknownSource
  }

  /** The source of every `Document` item, in list order; other items are skipped. */
  function CandidateSources(items: seq<SourceItem>): (r: seq<string>)
    ensures |r| <= |items|
    ensures forall i :: 0 <= i < |items| && items[i].DocItem? ==> SourceOf(items[i].doc) in r
    ensures forall x :: x in r ==> exists i :: 0 <= i < |items| && items[i].DocItem? && SourceOf(items[i].doc) == x
    decreases |items|
  {
    if |items| == 0 then []
    else
      var init := items[..|items| - 1];
      var prev := CandidateSources(init);
      assert forall i :: 0 <= i < |init| ==> items[i] == init[i];
      prev + ItemSource(items[|items| - 1])
  }

  /** What one item contributes: its source if it is a `Document`. */
  function ItemSource(item: SourceItem): seq<string> {
    match item
    case DocItem(d) => [SourceOf(d)]
    case OtherItem => []
  }

  /** Documents as they appear in a `source_documents` list. */
  function DocItems(docs: seq<Document>): (r: seq<SourceItem>)
    ensures |r| == |docs| && forall i :: 0 <= i < |docs| ==> r[i] == DocItem(docs[i])
  {
    seq(|docs|, i requires 0 <= i < |docs| => DocItem(docs[i]))
  }

  /** Documents that all cite `filename` give `filename` once per document. */
  lemma {:induction false} CandidateSourcesOfCiting(docs: seq<Document>, filename: string)
    requires forall i :: 0 <= i < |docs| ==> HasSource(docs[i], filename)
    ensures CandidateSources(DocItems(docs)) == seq(|docs|, _ => filename)
    decreases |docs|
  {
    if |docs| > 0 {
      var n := |docs| - 1;
      CandidateSourcesOfCiting(docs[..n], filename);
      assert DocItems(docs)[..n] == DocItems(docs[..n]);
      assert seq(|docs|, _ => filename) == seq(n, _ => filename) + [filename];
    }
  }

  /** However many times a value repeats, it is listed once. */
  lemma {:induction false} FirstSeenConstant(n: nat, x: string)
    requires n > 0
    ensures FirstSeen(seq(n, _ => x)) == [x]
    decreases n
  {
    var xs := seq(n, _ => x);
    if n > 1 {
      assert xs[..n - 1] == seq(n - 1, _ => x);
      FirstSeenConstant(n - 1, x);
      assert xs[n - 1] in xs[..n - 1];
    } else {
      assert xs[..0] == [];
    }
  }

  /** What the loaders stamp is what the answer reports: the documents
      `add_metadata(docs, filename)` produces are read back as `filename`,
      and retrieving any number of them lists that file once. */
  lemma StampedSourceReadBack(docs: seq<Document>, filename: string)
    requires |docs| > 0
    ensures forall i :: 0 <= i < |docs| ==> SourceOf(DocLoader.AddMetadata(docs, filename)[i]) == filename
    ensures FirstSeen(CandidateSources(DocItems(DocLoader.AddMetadata(docs, filename)))) == [filename]
  {
    var stamped := DocLoader.AddMetadata(docs, filename);
    CandidateSourcesOfCiting(stamped, filename);
    FirstSeenConstant(|docs|, filename);
  }

  lemma CandidateSourcesStep(items: seq<SourceItem>, i: nat)
    requires i < |items|
    ensures CandidateSources(items[..i + 1]) == CandidateSources(items[..i]) + ItemSource(items[i])
  {
    assert items[..i + 1][..i] == items[..i];
  }

  // ---------------------------------------------------------------------------
  // First-seen de-duplication: reference definition and its properties

  /** The elements of `xs` that do not occur earlier in `xs`, in order. */
  function FirstSeen(xs: seq<string>): seq<string>
    decreases |xs|
  {
    if |xs| == 0 then []
    else
      var init := xs[..|xs| - 1];
      FirstSeen(init) + if xs[|xs| - 1] in init then [] else [xs[|xs| - 1]]
  }

  /** Extending the input by one value appends that value to the output
      exactly when it is new. */
  lemma FirstSeenStep(xs: seq<string>, x: string)
    ensures FirstSeen(xs + [x]) == FirstSeen(xs) + if x in xs then [] else [x]
  {
    assert (xs + [x])[..|xs|] == xs;
  }

  /** Every element of `r` occurs in `xs`, and earlier elements of `r`
      first occur earlier in `xs`. */
  predicate InFirstSeenOrder(r: seq<string>, xs: seq<string>) {
    forall i, j :: 0 <= i < j < |r| ==> FirstsBefore(xs, r[i], r[j])
  }

  /** Both values occur in `xs`, and `a` first occurs before `b` does. */
  predicate FirstsBefore(xs: seq<string>, a: string, b: string) {
    a in xs && b in xs && FirstIndex(xs, a) < FirstIndex(xs, b)
  }

  predicate NoDuplicates(xs: seq<string>) {
    forall i, j :: 0 <= i < j < |xs| ==> xs[i] != xs[j]
  }

  /** The index of the first occurrence of `x` in `xs`. */
  function FirstIndex(xs: seq<string>, x: string): (k: nat)
    requires x in xs
    ensures k < |xs| && xs[k] == x && x !in xs[..k]
  {
    if xs[0] == x then 0
    else
      var k := 1 + FirstIndex(xs[1..], x);
      assert xs[..k] == [xs[0]] + xs[1..][..k - 1];
      k
  }

  lemma FirstIndexUnique(xs: seq<string>, x: string, k: nat)
    requires k < |xs| && xs[k] == x && x !in xs[..k]
    ensures FirstIndex(xs, x) == k
  {
  }

  /** Dropping the last element does not move any first occurrence earlier in the list. */
  lemma FirstIndexOfPrefix(xs: seq<string>, x: string)
    requires |xs| > 0 && x in xs[..|xs| - 1]
    ensures FirstIndex(xs, x) == FirstIndex(xs[..|xs| - 1], x)
  {
    var init := xs[..|xs| - 1];
    var k := FirstIndex(init, x);
    assert xs[..k] == init[..k];
    FirstIndexUnique(xs, x, k);
  }

  /** De-duplication keeps exactly the values of the input. */
  lemma {:induction false} FirstSeenMembers(xs: seq<string>)
    ensures forall y :: y in FirstSeen(xs) <==> y in xs
    decreases |xs|
  {
    if |xs| > 0 {
      var init := xs[..|xs| - 1];
      FirstSeenMembers(init);
      assert xs == init + [xs[|xs| - 1]];
    }
  }

  /** De-duplication leaves no value twice. */
  lemma {:induction false} FirstSeenNoDuplicates(xs: seq<string>)
    ensures NoDuplicates(FirstSeen(xs))
    decreases |xs|
  {
    if |xs| > 0 {
      var init := xs[..|xs| - 1];
      FirstSeenNoDuplicates(init);
      FirstSeenMembers(init);
    }
  }

  /** De-duplication lists values in the order of their first occurrence. */
  lemma {:induction false} FirstSeenOrder(xs: seq<string>)
    ensures InFirstSeenOrder(FirstSeen(xs), xs)
    decreases |xs|
  {
    FirstSeenMembers(xs);
    if |xs| > 0 {
      var n := |xs| - 1;
      var init := xs[..n];
      var prev := FirstSeen(init);
      FirstSeenOrder(init);
      assert InFirstSeenOrder(prev, init);
      FirstSeenMembers(init);
      var r := FirstSeen(xs);
      forall i, j | 0 <= i < j < |r|
        ensures r[i] in xs && r[j] in xs && FirstIndex(xs, r[i]) < FirstIndex(xs, r[j])
      {
        assert r[i] == prev[i] && r[i] in prev;
        FirstIndexOfPrefix(xs, r[i]);
        if j < |prev| {
          assert r[j] == prev[j] && r[j] in prev;
          FirstIndexOfPrefix(xs, r[j]);
          assert FirstIndex(init, prev[i]) < FirstIndex(init, prev[j]);
        } else {
          assert r[j] == xs[n] && xs[n] !in init;
          FirstIndexUnique(xs, xs[n], n);
          assert FirstIndex(init, prev[i]) < n;
        }
      }
    }
  }

  /** In a list in first-occurrence order, the last element comes after every other. */
  lemma LastIsLatest(r: seq<string>, xs: seq<string>, y: string)
    requires InFirstSeenOrder(r, xs) && |r| > 0
    requires y in r[..|r| - 1]
    ensures y in xs && r[|r| - 1] in xs && FirstIndex(xs, y) < FirstIndex(xs, r[|r| - 1])
  {
    var i :| 0 <= i < |r| - 1 && r[..|r| - 1][i] == y;
    assert r[i] == y && i < |r| - 1;
    assert r[i] in xs && r[|r| - 1] in xs && FirstIndex(xs, r[i]) < FirstIndex(xs, r[|r| - 1]);
  }

  lemma PrefixInOrder(r: seq<string>, xs: seq<string>, r': seq<string>)
    requires InFirstSeenOrder(r, xs) && |r| > 0 && r' == r[..|r| - 1]
    ensures InFirstSeenOrder(r', xs)
  {
    forall i, j | 0 <= i < j < |r'|
      ensures FirstsBefore(xs, r'[i], r'[j])
    {
      assert r'[i] == r[i] && r'[j] == r[j] && j < |r|;
    }
  }

  /** Two lists with the same values in first-occurrence order end alike,
      and agree in their values once that last element is dropped. */
  lemma SameLast(r: seq<string>, t: seq<string>, xs: seq<string>, r': seq<string>, t': seq<string>)
    requires forall y :: y in r <==> y in t
    requires InFirstSeenOrder(r, xs) && InFirstSeenOrder(t, xs)
    requires |r| > 0 && |t| > 0 && r' == r[..|r| - 1] && t' == t[..|t| - 1]
    ensures r[|r| - 1] == t[|t| - 1]
    ensures forall y :: y in r' <==> y in t'
  {
    var a, b := r[|r| - 1], t[|t| - 1];
    assert a in r && b in t;
    forall y | y in r'
      ensures y in t'
    {
      LastIsLatest(r, xs, y);
      assert y in r;
      var k :| 0 <= k < |t| && t[k] == y;
      assert t'[k] == y;
    }
    forall y | y in t'
      ensures y in r'
    {
      LastIsLatest(t, xs, y);
      assert y in t;
      var k :| 0 <= k < |r| && r[k] == y;
      assert r'[k] == y;
    }
  }

  /** Two lists holding the same values, both in first-occurrence order
      of `xs`, are equal. */
  lemma {:induction false} FirstSeenOrderDetermines(r: seq<string>, t: seq<string>, xs: seq<string>)
    requires forall y :: y in r <==> y in t
    requires InFirstSeenOrder(r, xs) && InFirstSeenOrder(t, xs)
    ensures r == t
    decreases |r|
  {
    if |r| > 0 {
      assert r[0] in t;
    }
    if |t| > 0 {
      assert t[0] in r;
    }
    if |r| > 0 && |t| > 0 {
      var r', t' := r[..|r| - 1], t[..|t| - 1];
      SameLast(r, t, xs, r', t');
      PrefixInOrder(r, xs, r');
      PrefixInOrder(t, xs, t');
      FirstSeenOrderDetermines(r', t', xs);
      assert r == r' + [r[|r| - 1]];
      assert t == t' + [t[|t| - 1]];
    }
  }

  /** The de-duplicated list is the only list with the input's values in
      first-occurrence order: these two properties are its whole meaning. */
  lemma FirstSeenCharacterised(xs: seq<string>, r: seq<string>)
    requires forall y :: y in r <==> y in xs
    requires InFirstSeenOrder(r, xs)
    ensures r == FirstSeen(xs)
  {
    FirstSeenMembers(xs);
    FirstSeenOrder(xs);
    FirstSeenOrderDetermines(r, FirstSeen(xs), xs);
  }

  // ---------------------------------------------------------------------------
  // Result handlers

  /** `handle_dict_result`: the `result` entry (default "") as the answer,
      and the sources of the `Document` items of `source_documents`
      (default empty) with repeats removed, first occurrence kept. */
  method HandleDictResult(d: ResultDict) returns (r: QueryResponse)
    ensures r.answer == d.result.GetOr("")
    ensures r.sources == FirstSeen(CandidateSources(d.sourceDocuments.GetOr([])))
    ensures NoDuplicates(r.sources)
    ensures forall s :: s in r.sources <==> s in CandidateSources(d.sourceDocuments.GetOr([]))
    ensures InFirstSeenOrder(r.sources, CandidateSources(d.sourceDocuments.GetOr([])))
  {
    var answer := d.result.GetOr("");
    var sourceDocs := d.sourceDocuments.GetOr([]);
    var seenSources: set<string> := {};
    var sources: seq<string> := [];
    var i := 0;
    while i < |sourceDocs|
      invariant 0 <= i <= |sourceDocs|
      invariant sources == FirstSeen(CandidateSources(sourceDocs[..i]))
      invariant forall s :: s in seenSources <==> s in CandidateSources(sourceDocs[..i])
    {
      CandidateSourcesStep(sourceDocs, i);
      var prefix := CandidateSources(sourceDocs[..i]);
      match sourceDocs[i] {
        case DocItem(doc) =>
          var source := SourceOf(doc);
          FirstSeenStep(prefix, source);
          if source !in seenSources {
            seenSources := seenSources + {source};
            sources := sources + [source];
          }
        case OtherItem =>
          assert prefix + [] == prefix;
      }
      i := i + 1;
    }
    assert sourceDocs[..i] == sourceDocs;
    FirstSeenNoDuplicates(CandidateSources(sourceDocs));
    FirstSeenMembers(CandidateSources(sourceDocs));
    FirstSeenOrder(CandidateSources(sourceDocs));
    r := QueryResponse(answer, sources);
  }

  /** `handle_str_result`: the string is the answer; there are no sources. */
  function HandleStrResult(result: string): (r: QueryResponse)
    ensures r.answer == result && r.sources == []
  {
    QueryResponse(result, [])
  }

  /** `ask_question`: 503 when no chain has been built (the chain is not
      invoked); otherwise invokes it on the query and dispatches on the
      result's exact type, with 500 for a type the table does not list. */
  method AskQuestion(chain: Option<RagService.QaChain>, query: string,
                     invoke: (RagService.QaChain, string) -> ChainResult)
    returns (r: Result<QueryResponse, HttpError>)
    ensures chain.None? ==> r == Err(NotInitialized)
    ensures chain.Some? && invoke(chain.value, query).OtherResult? ==>
              r == Err(UnsupportedType(invoke(chain.value, query).typeName))
    ensures chain.Some? && invoke(chain.value, query).StrResult? ==>
              r == Ok(QueryResponse(invoke(chain.value, query).text, []))
    ensures chain.Some? && invoke(chain.value, query).DictResult? ==>
              var fields := invoke(chain.value, query).fields;
              && r.Ok? && r.value.answer == fields.result.GetOr("")
              && NoDuplicates(r.value.sources)
              && r.value.sources == FirstSeen(CandidateSources(fields.sourceDocuments.GetOr([])))
  {
    if chain.None? {
      return Err(NotInitialized);
    }
    var result := invoke(chain.value, query);
    match result {
      case DictResult(fields) =>
        var response := HandleDictResult(fields);
        r := Ok(response);
      case StrResult(text) =>
        r := Ok(HandleStrResult(text));
      case OtherResult(typeName) =>
        r := Err(UnsupportedType(typeName));
    }
  }

  /** Sources `a.pdf, b.pdf, a.pdf` collapse to `a.pdf, b.pdf`. */
  lemma DedupExample()
    ensures FirstSeen(["a.pdf", "b.pdf", "a.pdf"]) == ["a.pdf", "b.pdf"]
  {
    FirstSeenStep([], "a.pdf");
    FirstSeenStep(["a.pdf"], "b.pdf");
    FirstSeenStep(["a.pdf", "b.pdf"], "a.pdf");
    assert [] + ["a.pdf"] == ["a.pdf"];
    assert ["a.pdf"] + ["b.pdf"] == ["a.pdf", "b.pdf"];
    assert ["a.pdf", "b.pdf"] + ["a.pdf"] == ["a.pdf", "b.pdf", "a.pdf"];
  }
}
