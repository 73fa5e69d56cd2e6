/** The module-level `semantic_search`: embed the query, embed the documents, rank them. */
module Search {
  import opened Errors
  import opened Text
  import opened Similarity
  import opened Ranking
  import opened Embedding

  /** Embed `query` and `documents` with one service and rank the document embeddings,
      pairing the i-th embedding with `labels[i]`. The query is embedded first; an exception
      there means the documents are never sent. */
  function Search(service: EmbeddingService, norm: Vector -> real, query: string,
                  documents: seq<string>, labels: seq<string>, topK: int, threshold: real)
    : Traced<seq<Match>>
  {
    var q := CreateEmbedding(service, query);
    if q.result.Failure? then Traced(Failure(q.result.error), q.calls)
    else
      var b := EmbedBatch(service, documents);
      if b.result.Failure? then Traced(Failure(b.result.error), q.calls + b.calls)
      else Traced(FindSimilar(norm, q.result.value, b.result.value, labels, topK, threshold),
                  q.calls + b.calls)
  }

  /** `semantic_search` as written: the embeddings of the cleaned documents are paired with
      the documents as given, blank ones included. */
  function SemanticSearchAsWritten(service: EmbeddingService, norm: Vector -> real, query: string,
                                   documents: seq<string>, topK: int, threshold: real)
    : Traced<seq<Match>>
  {
    Search(service, norm, query, documents, documents, topK, threshold)
  }

  /** The documents that survive cleaning, as given (not stripped), in order. */
  function NonBlank(documents: seq<string>): (r: seq<string>)
    ensures forall k :: 0 <= k < |r| ==> !AllWhitespace(r[k])
  {
    if documents == [] then []
    else
      var last := documents[|documents| - 1];
      NonBlank(documents[..|documents| - 1]) + (if AllWhitespace(last) then [] else [last])
  }

  /** The surviving documents are the documents at the kept indices, in order. */
  lemma {:induction false} NonBlankIsKept(documents: seq<string>)
    ensures |NonBlank(documents)| == |Kept(documents)|
    ensures forall k :: 0 <= k < |Kept(documents)| ==>
              Kept(documents)[k] < |documents| && NonBlank(documents)[k] == documents[Kept(documents)[k]]
  {
    if documents != [] {
      var n := |documents| - 1;
      var init := documents[..n];
      NonBlankIsKept(init);
      var kept := Kept(init);
      var tail: seq<string> := if AllWhitespace(documents[n]) then [] else [documents[n]];
      var ktail: seq<nat> := if AllWhitespace(documents[n]) then [] else [n];
      assert NonBlank(documents) == NonBlank(init) + tail;
      assert Kept(documents) == kept + ktail;
      forall k | 0 <= k < |Kept(documents)|
        ensures Kept(documents)[k] < |documents| && NonBlank(documents)[k] == documents[Kept(documents)[k]]
      {
        if k < |kept| {
          assert NonBlank(documents)[k] == NonBlank(init)[k] && Kept(documents)[k] == kept[k];
          assert init[kept[k]] == documents[kept[k]];
        }
      }
    }
  }

  /** `semantic_search` as evidently intended: each embedding is paired with the document it
      was computed from. */
  function SemanticSearch(service: EmbeddingService, norm: Vector -> real, query: string,
                          documents: seq<string>, topK: int, threshold: real)
    : Traced<seq<Match>>
  {
    Search(service, norm, query, documents, NonBlank(documents), topK, threshold)
  }

  /** `semantic_search`, step by step with the service's own operations, as written. */
  method SemanticSearchSteps(provider: Provider, norm: Vector -> real, query: string,
                             documents: seq<string>, topK: int := 5, threshold: real := 0.7,
                             model: string := DefaultModel)
    returns (r: Result<seq<Match>>, calls: seq<Request>)
    ensures Traced(r, calls)
            == SemanticSearchAsWritten(EmbeddingService(model, provider), norm, query, documents, topK, threshold)
  {
    var service := EmbeddingService(model, provider);
    var queryEmbedding := CreateEmbedding(service, query);
    calls := queryEmbedding.calls;
    if queryEmbedding.result.Failure? {
      return Failure(queryEmbedding.result.error), calls;
    }
    var docEmbeddings, batchCalls := CreateEmbeddingsBatch(service, documents);
    calls := calls + batchCalls;
    if docEmbeddings.Failure? {
      return Failure(docEmbeddings.error), calls;
    }
    r := FindSimilarTexts(norm, queryEmbedding.result.value, docEmbeddings.value, documents, topK, threshold);
  }

  /** A blank query is refused before any request is made, as written and as intended. */
  lemma BlankQuery(service: EmbeddingService, norm: Vector -> real, query: string,
                   documents: seq<string>, labels: seq<string>, topK: int, threshold: real)
    ensures AllWhitespace(query) <==>
              Search(service, norm, query, documents, labels, topK, threshold) == Traced(Failure(EmptyText), [])
  {
  }

  /** The documents are embedded only after the query's single request has succeeded: the
      requests are the query's followed by the batch's. */
  lemma SearchRequests(service: EmbeddingService, norm: Vector -> real, query: string,
                       documents: seq<string>, labels: seq<string>, topK: int, threshold: real)
    ensures var t := Search(service, norm, query, documents, labels, topK, threshold);
            var q := CreateEmbedding(service, query);
            (q.result.Failure? ==> t == Traced(Failure(q.result.error), q.calls))
            && (q.result.Success? ==>
                  |q.calls| == 1 && t.calls == q.calls + EmbedBatch(service, documents).calls)
  {
  }

  /** Cleaning is stripping the surviving documents. */
  lemma {:induction false} CleanIsStrippedNonBlank(documents: seq<string>)
    ensures |Clean(documents)| == |NonBlank(documents)|
    ensures forall k :: 0 <= k < |Clean(documents)| ==> Clean(documents)[k] == Strip(NonBlank(documents)[k])
  {
    if documents != [] {
      var n := |documents| - 1;
      var init := documents[..n];
      CleanIsStrippedNonBlank(init);
      var last := Strip(documents[n]);
      assert Clean(documents) == Clean(init) + (if last == [] then [] else [last]);
    }
  }

  /** With no blank document nothing is dropped, so as written and as intended agree. */
  lemma {:induction false} NonBlankWithoutBlanks(documents: seq<string>)
    requires forall i :: 0 <= i < |documents| ==> !AllWhitespace(documents[i])
    ensures NonBlank(documents) == documents
  {
    if documents != [] {
      var n := |documents| - 1;
      var init := documents[..n];
      assert forall i :: 0 <= i < n ==> init[i] == documents[i];
      NonBlankWithoutBlanks(init);
      assert !AllWhitespace(documents[n]);
      assert NonBlank(documents) == NonBlank(init) + [documents[n]];
      assert init + [documents[n]] == documents;
    }
  }

  lemma AsWrittenWithoutBlanks(service: EmbeddingService, norm: Vector -> real, query: string,
                               documents: seq<string>, topK: int, threshold: real)
    requires forall i :: 0 <= i < |documents| ==> !AllWhitespace(documents[i])
    ensures SemanticSearchAsWritten(service, norm, query, documents, topK, threshold)
            == SemanticSearch(service, norm, query, documents, topK, threshold)
  {
    NonBlankWithoutBlanks(documents);
  }

  /** Against a provider that embeds each text with `f`, the search ranks `f` of the cleaned
      documents against `f` of the stripped query. */
  lemma SearchPointwise(service: EmbeddingService, f: string -> Vector, norm: Vector -> real,
                        query: string, documents: seq<string>, labels: seq<string>, topK: int, threshold: real)
    requires Answers(service, f)
    requires !AllWhitespace(query)
    ensures Search(service, norm, query, documents, labels, topK, threshold).result
            == FindSimilar(norm, f(Strip(query)), EmbedAll(f, Clean(documents)), labels, topK, threshold)
  {
    CreateEmbeddingPointwise(service, f, query);
    BatchPointwise(service, f, documents);
  }

  /** Ranking embeddings computed from the labels themselves, `embeddings[i] == g(labels[i])`:
      it returns normally exactly when every embedding has the query's dimension, and each
      match pairs a label with the score of its own embedding. */
  lemma {:induction false} RankOwnEmbeddings(norm: Vector -> real, q: Vector, g: string -> Vector,
                                             embeddings: seq<Vector>, labels: seq<string>, topK: int, threshold: real)
    requires |embeddings| == |labels|
    requires forall i :: 0 <= i < |labels| ==> embeddings[i] == g(labels[i])
    ensures var r := FindSimilar(norm, q, embeddings, labels, topK, threshold);
            && (r.Success? <==> forall i :: 0 <= i < |labels| ==> |g(labels[i])| == |q|)
            && (r.Success? ==>
                  forall k :: 0 <= k < |r.value| ==>
                    exists i :: && 0 <= i < |labels| && |g(labels[i])| == |q|
                                && r.value[k] == Match(labels[i], Score(norm, q, g(labels[i]))))
  {
    var r := FindSimilar(norm, q, embeddings, labels, topK, threshold);
    FindSimilarRaises(norm, q, embeddings, labels, topK, threshold);
    if r.Success? {
      FindSimilarMembers(norm, q, embeddings, labels, topK, threshold);
    }
  }

  /** As intended, against a provider that embeds each text with `f`, the search returns
      normally exactly when every surviving document's embedding has the query's dimension,
      and each returned match pairs a surviving document with the score of its own embedding. */
  lemma SemanticSearchAligned(service: EmbeddingService, f: string -> Vector, norm: Vector -> real,
                              query: string, documents: seq<string>, topK: int, threshold: real)
    requires Answers(service, f)
    requires !AllWhitespace(query)
    ensures var t := SemanticSearch(service, norm, query, documents, topK, threshold);
            var q := f(Strip(query));
            var docs := NonBlank(documents);
            && (t.result.Success? <==> forall i :: 0 <= i < |docs| ==> |f(Strip(docs[i]))| == |q|)
            && (t.result.Success? ==>
                  forall k :: 0 <= k < |t.result.value| ==>
                    exists i :: && 0 <= i < |docs| && |f(Strip(docs[i]))| == |q|
                                && t.result.value[k] == Match(docs[i], Score(norm, q, f(Strip(docs[i])))))
  {
    var docs := NonBlank(documents);
    SearchPointwise(service, f, norm, query, documents, docs, topK, threshold);
    assert SemanticSearch(service, norm, query, documents, topK, threshold)
           == Search(service, norm, query, documents, docs, topK, threshold);
    CleanIsStrippedNonBlank(documents);
    RankOwnEmbeddings(norm, f(Strip(query)), d => f(Strip(d)), EmbedAll(f, Clean(documents)), docs, topK, threshold);
  }

  /** A toy embedding: "weather" points one way, every other text the opposite way. */
  function Toy(t: string): Vector {
    if t == "weather" then [-1.0] else [1.0]
  }

  function ToyProvider(request: Request): Response {
    Embeddings(EmbedAll(Toy, request.input))
  }

  /** As written, a blank document shifts the pairing: with documents `["", "budget", "weather"]`
      and the query "budget", the blank document is returned with the score that belongs to
      "budget", while the intended search returns "budget" itself. */
  lemma BlankDocumentMisaligns(norm: Vector -> real)
    requires norm([1.0]) == 1.0 && norm([-1.0]) == 1.0
    ensures var service := EmbeddingService(DefaultModel, ToyProvider);
            var documents := ["", "budget", "weather"];
            && SemanticSearchAsWritten(service, norm, "budget", documents, 5, 0.5).result
               == Success([Match("", 1.0)])
            && SemanticSearch(service, norm, "budget", documents, 5, 0.5).result
               == Success([Match("budget", 1.0)])
  {
    var service := EmbeddingService(DefaultModel, ToyProvider);
    var documents := ["", "budget", "weather"];
    ToyDocuments();
    var embeddings := EmbedAll(Toy, ["budget", "weather"]);
    assert embeddings == [[1.0], [-1.0]];
    SearchPointwise(service, Toy, norm, "budget", documents, documents, 5, 0.5);
    SearchPointwise(service, Toy, norm, "budget", documents, NonBlank(documents), 5, 0.5);
    ToyRanking(norm, documents, [Match("", 1.0)]);
    ToyRanking(norm, ["budget", "weather"], [Match("budget", 1.0)]);
  }

  /** Cleaning the toy documents drops the blank one. */
  lemma ToyDocuments()
    ensures Strip("budget") == "budget" && !AllWhitespace("budget")
    ensures Clean(["", "budget", "weather"]) == ["budget", "weather"]
    ensures NonBlank(["", "budget", "weather"]) == ["budget", "weather"]
  {
    var documents := ["", "budget", "weather"];
    assert !IsWhitespace('b') && !IsWhitespace('t') && !IsWhitespace('w') && !IsWhitespace('r');
    assert "budget"[0] == 'b' && "weather"[0] == 'w';
    assert Strip("budget") == "budget" && Strip("weather") == "weather" && Strip("") == "";
    assert documents[..2][..1] == documents[..1];
    assert documents[..3][..2] == documents[..2];
    assert Clean(documents[..1]) == [];
    assert Clean(documents[..2]) == ["budget"];
    assert NonBlank(documents[..1]) == [];
    assert NonBlank(documents[..2]) == ["budget"];
  }

  /** Ranking the toy embeddings against the query "budget": only the first embedding
      reaches the threshold, and it is paired with the first label. */
  lemma ToyRanking(norm: Vector -> real, labels: seq<string>, expected: seq<Match>)
    requires norm([1.0]) == 1.0 && norm([-1.0]) == 1.0
    requires |labels| >= 1 && expected == [Match(labels[0], 1.0)]
    ensures FindSimilar(norm, [1.0], [[1.0], [-1.0]], labels, 5, 0.5) == Success(expected)
  {
    assert CosineSimilarity(norm, [1.0], [1.0]) == Success(1.0);
    assert CosineSimilarity(norm, [1.0], [-1.0]) == Success(-1.0);
    var embeddings: seq<Vector> := [[1.0], [-1.0]];
    assert embeddings[0] == [1.0] && embeddings[1] == [-1.0];
    assert Candidates(norm, [1.0], embeddings, labels, 0.5, 0) == Success([]);
    assert [] + expected == expected;
    assert Candidates(norm, [1.0], [[1.0], [-1.0]], labels, 0.5, 1) == Success(expected);
    assert Candidates(norm, [1.0], [[1.0], [-1.0]], labels, 0.5, 2) == Success(expected);
    assert SortByScoreDesc(expected) == expected;
  }
}
