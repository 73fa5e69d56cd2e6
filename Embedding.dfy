/** `EmbeddingService.create_embedding` and `create_embeddings_batch`, over an abstract provider. */
module Embedding {
  import opened Errors
  import opened Text
  import opened Batching
  import opened Similarity

  const DefaultModel: string := "text-embedding-3-small"

  /** The most texts one provider request carries. */
  const BatchSize: nat := 2048

  /** One call `client.embeddings.create(model=..., input=...)`. */
  datatype Request = Request(model: string, input: seq<string>)

  /** The vectors of `response.data`, in order, or the exception the call raised. */
  datatype Response = Embeddings(data: seq<Vector>) | Failed(reason: string)

  type Provider = Request -> Response

  /** The service: the model name and the client, both fixed once constructed. */
  datatype EmbeddingService = EmbeddingService(model: string, provider: Provider)

  /** A result together with the provider requests made to get it, in order. */
  datatype Traced<T> = Traced(result: Result<T>, calls: seq<Request>)

  /** A provider that embeds every text on its own, with `f`, and never fails. */
  ghost predicate Answers(service: EmbeddingService, f: string -> Vector) {
    forall inputs :: service.provider(Request(service.model, inputs)) == Embeddings(EmbedAll(f, inputs))
  }

  /** A provider whose successful answers hold one vector per input text. */
  ghost predicate OnePerInput(service: EmbeddingService) {
    forall req :: service.provider(req).Embeddings? ==> |service.provider(req).data| == |req.input|
  }

  function EmbedAll(f: string -> Vector, texts: seq<string>): (r: seq<Vector>)
    ensures |r| == |texts| && forall k :: 0 <= k < |texts| ==> r[k] == f(texts[k])
  {
    if texts == [] then [] else [f(texts[0])] + EmbedAll(f, texts[1..])
  }

  /** `create_embedding`: strips the text, refuses a blank one without calling the provider,
      otherwise makes exactly one call on the stripped text and returns the first vector. */
  function CreateEmbedding(service: EmbeddingService, text: string): (r: Traced<Vector>)
    ensures r.result == Failure(EmptyText) <==> AllWhitespace(text)
    ensures r.calls == if AllWhitespace(text) then [] else [Request(service.model, [Strip(text)])]
    ensures r.result.Success? ==>
              var response := service.provider(r.calls[0]);
              response.Embeddings? && response.data != [] && r.result.value == response.data[0]
    ensures r.result.Failure? && !AllWhitespace(text) ==>
              var response := service.provider(r.calls[0]);
              || (response.Failed? && r.result.error == ProviderFailure(response.reason))
              || (response.Embeddings? && response.data == [] && r.result.error == MissingEmbedding)
  {
    var stripped := Strip(text);
    if stripped == [] then Traced(Failure(EmptyText), [])
    else
      var request := Request(service.model, [stripped]);
      match service.provider(request)
      case Failed(reason) => Traced(Failure(ProviderFailure(reason)), [request])
      case Embeddings(data) =>
        if data == [] then Traced(Failure(MissingEmbedding), [request])
        else Traced(Success(data[0]), [request])
  }

  /** Against a provider that embeds each text with `f`, a text that is not blank gets `f` of
      its stripped form. */
  lemma CreateEmbeddingPointwise(service: EmbeddingService, f: string -> Vector, text: string)
    requires Answers(service, f)
    ensures !AllWhitespace(text) ==> CreateEmbedding(service, text).result == Success(f(Strip(text)))
  {
  }

  /** `[text.strip() for text in texts if text.strip()]`. */
  function Clean(texts: seq<string>): (r: seq<string>)
    ensures |r| <= |texts|
    ensures forall k :: 0 <= k < |r| ==> r[k] != [] && Strip(r[k]) == r[k]
  {
    if texts == [] then []
    else
      var last := Strip(texts[|texts| - 1]);
      StripIdempotent(texts[|texts| - 1]);
      Clean(texts[..|texts| - 1]) + (if last == [] then [] else [last])
  }

  /** The indices of the texts that are not blank, in increasing order. */
  function Kept(texts: seq<string>): seq<nat> {
    if texts == [] then []
    else Kept(texts[..|texts| - 1]) + (if AllWhitespace(texts[|texts| - 1]) then [] else [|texts| - 1])
  }

  /** The kept indices are increasing, in range, and are exactly the non-blank texts. */
  lemma {:induction false} KeptIndices(texts: seq<string>)
    ensures forall k :: 0 <= k < |Kept(texts)| ==> Kept(texts)[k] < |texts|
    ensures forall k, l :: 0 <= k < l < |Kept(texts)| ==> Kept(texts)[k] < Kept(texts)[l]
    ensures forall i :: 0 <= i < |texts| ==> (i in Kept(texts) <==> !AllWhitespace(texts[i]))
  {
    if texts != [] {
      var init := texts[..|texts| - 1];
      KeptIndices(init);
      assert forall i :: 0 <= i < |init| ==> init[i] == texts[i];
    }
  }

  /** The cleaned list is the order-preserving subsequence of the stripped non-blank texts:
      its k-th element is the stripped text at the k-th non-blank index. */
  lemma {:induction false} CleanIsOrderedSubsequence(texts: seq<string>)
    ensures |Clean(texts)| == |Kept(texts)|
    ensures forall k :: 0 <= k < |Kept(texts)| ==>
              Kept(texts)[k] < |texts| && Clean(texts)[k] == Strip(texts[Kept(texts)[k]])
  {
    if texts != [] {
      var n := |texts| - 1;
      var init := texts[..n];
      CleanIsOrderedSubsequence(init);
      var c, kept := Clean(init), Kept(init);
      var last := Strip(texts[n]);
      var tail: seq<string> := if last == [] then [] else [last];
      var ktail: seq<nat> := if AllWhitespace(texts[n]) then [] else [n];
      assert Clean(texts) == c + tail;
      assert Kept(texts) == kept + ktail;
      assert |tail| == |ktail|;
      forall k | 0 <= k < |Kept(texts)|
        ensures Kept(texts)[k] < |texts| && Clean(texts)[k] == Strip(texts[Kept(texts)[k]])
      {
        if k < |kept| {
          assert Clean(texts)[k] == c[k] && Kept(texts)[k] == kept[k];
          assert init[kept[k]] == texts[kept[k]];
        }
      }
    }
  }

  /** Nothing survives cleaning exactly when every text is blank. */
  lemma {:induction false} CleanEmpty(texts: seq<string>)
    ensures Clean(texts) == [] <==> forall i :: 0 <= i < |texts| ==> AllWhitespace(texts[i])
  {
    if texts != [] {
      var n := |texts| - 1;
      var init := texts[..n];
      CleanEmpty(init);
      assert forall i :: 0 <= i < n ==> init[i] == texts[i];
      var last := Strip(texts[n]);
      assert Clean(texts) == Clean(init) + (if last == [] then [] else [last]);
    }
  }

  /** With no blank text, cleaning only strips: nothing is dropped and indices line up. */
  lemma {:induction false} CleanWithoutBlanks(texts: seq<string>)
    requires forall i :: 0 <= i < |texts| ==> !AllWhitespace(texts[i])
    ensures |Clean(texts)| == |texts|
    ensures forall i :: 0 <= i < |texts| ==> Clean(texts)[i] == Strip(texts[i])
  {
    if texts != [] {
      var n := |texts| - 1;
      var init := texts[..n];
      assert forall i :: 0 <= i < n ==> init[i] == texts[i];
      CleanWithoutBlanks(init);
      assert Strip(texts[n]) != [];
      var c := Clean(init);
      assert Clean(texts) == c + [Strip(texts[n])];
      forall i | 0 <= i < |texts| ensures Clean(texts)[i] == Strip(texts[i]) {
        if i < n {
          assert Clean(texts)[i] == c[i] == Strip(init[i]);
        }
      }
    }
  }

  /** `prefix` vectors and `calls` already made, followed by what the remaining requests give;
      an exception in the remaining requests discards the prefix. */
  function Then(prefix: seq<Vector>, calls: seq<Request>, rest: Traced<seq<Vector>>): Traced<seq<Vector>> {
    Traced(if rest.result.Success? then Success(prefix + rest.result.value) else rest.result,
           calls + rest.calls)
  }

  /** One provider request per chunk, in order, extending the vectors with each response's
      data and stopping at the first request that raises. */
  function EmbedChunks(service: EmbeddingService, chunks: seq<seq<string>>): Traced<seq<Vector>> {
    if chunks == [] then Traced(Success([]), [])
    else
      var request := Request(service.model, chunks[0]);
      match service.provider(request)
      case Failed(reason) => Traced(Failure(ProviderFailure(reason)), [request])
      case Embeddings(data) => Then(data, [request], EmbedChunks(service, chunks[1..]))
  }

  /** `create_embeddings_batch` as a value: clean the texts, answer `[]` without a request when
      nothing is left, else send the cleaned texts in chunks of `BatchSize`. */
  function EmbedBatch(service: EmbeddingService, texts: seq<string>): Traced<seq<Vector>> {
    var cleaned := Clean(texts);
    if cleaned == [] then Traced(Success([]), [])
    else EmbedChunks(service, Chunks(cleaned, BatchSize))
  }

  /** The cleaned texts from offset `i` on (none once `i` passes the end). */
  function From(cleaned: seq<string>, i: nat): seq<string> {
    if i < |cleaned| then cleaned[i..] else []
  }

  /** `create_embeddings_batch`: the loop over offsets `0, BatchSize, 2 * BatchSize, ...`. */
  method CreateEmbeddingsBatch(service: EmbeddingService, texts: seq<string>)
    returns (r: Result<seq<Vector>>, calls: seq<Request>)
    ensures Traced(r, calls) == EmbedBatch(service, texts)
  {
    var cleaned := Clean(texts);
    calls := [];
    if cleaned == [] {
      return Success([]), calls;
    }
    var all: seq<Vector> := [];
    var i := 0;
    assert From(cleaned, 0) == cleaned;
    ThenNothing(EmbedChunks(service, Chunks(cleaned, BatchSize)));
    while i < |cleaned|
      invariant Then(all, calls, EmbedChunks(service, Chunks(From(cleaned, i), BatchSize)))
                == EmbedChunks(service, Chunks(cleaned, BatchSize))
      decreases |cleaned| - i
    {
      var end := if i + BatchSize < |cleaned| then i + BatchSize else |cleaned|;
      var batch := cleaned[i..end];
      var request := Request(service.model, batch);
      var next := Chunks(From(cleaned, i + BatchSize), BatchSize);
      ChunksFromStep(cleaned, i);
      EmbedChunksCons(service, batch, next);
      var response := service.provider(request);
      match response {
        case Failed(reason) =>
          return Failure(ProviderFailure(reason)), calls + [request];
        case Embeddings(data) =>
          ThenAssociative(all, calls, data, [request], EmbedChunks(service, next));
          all := all + data;
          calls := calls + [request];
      }
      i := i + BatchSize;
    }
    assert From(cleaned, i) == [] && all + [] == all && calls + [] == calls;
    return Success(all), calls;
  }

  /** The chunks from offset `i` are the batch `cleaned[i:i + BatchSize]` followed by the
      chunks from the next offset. */
  lemma ChunksFromStep(cleaned: seq<string>, i: nat)
    requires i < |cleaned|
    ensures var end := if i + BatchSize < |cleaned| then i + BatchSize else |cleaned|;
            Chunks(From(cleaned, i), BatchSize)
            == [cleaned[i..end]] + Chunks(From(cleaned, i + BatchSize), BatchSize)
  {
    var end := if i + BatchSize < |cleaned| then i + BatchSize else |cleaned|;
    ChunksFirst(cleaned[i..], BatchSize);
    assert cleaned[i..][..end - i] == cleaned[i..end];
    assert cleaned[i..][end - i..] == From(cleaned, i + BatchSize);
  }

  lemma EmbedChunksCons(service: EmbeddingService, batch: seq<string>, next: seq<seq<string>>)
    ensures var request := Request(service.model, batch);
            EmbedChunks(service, [batch] + next)
            == match service.provider(request)
               case Failed(reason) => Traced(Failure(ProviderFailure(reason)), [request])
               case Embeddings(data) => Then(data, [request], EmbedChunks(service, next))
  {
    assert ([batch] + next)[1..] == next;
  }

  lemma ThenNothing(t: Traced<seq<Vector>>)
    ensures Then([], [], t) == t
  {
    if t.result.Success? {
      assert [] + t.result.value == t.result.value;
    }
    assert [] + t.calls == t.calls;
  }

  lemma ThenAssociative(p: seq<Vector>, c: seq<Request>, q: seq<Vector>, d: seq<Request>,
                        rest: Traced<seq<Vector>>)
    ensures Then(p, c, Then(q, d, rest)) == Then(p + q, c + d, rest)
  {
    if rest.result.Success? {
      assert p + (q + rest.result.value) == p + q + rest.result.value;
    }
    assert c + (d + rest.calls) == c + d + rest.calls;
  }

  /** The k-th request made carries the k-th chunk and at least one is made when there is a
      chunk; every request before the last was answered with vectors; on success every chunk
      was sent, and on failure the last request raised and its reason is the error reported. */
  lemma {:induction false} EmbedChunksRequests(service: EmbeddingService, chunks: seq<seq<string>>)
    ensures |EmbedChunks(service, chunks).calls| <= |chunks|
    ensures chunks != [] ==> EmbedChunks(service, chunks).calls != []
    ensures forall k :: 0 <= k < |EmbedChunks(service, chunks).calls| ==>
              EmbedChunks(service, chunks).calls[k] == Request(service.model, chunks[k])
    ensures forall k :: 0 <= k < |EmbedChunks(service, chunks).calls| - 1 ==>
              service.provider(EmbedChunks(service, chunks).calls[k]).Embeddings?
    ensures EmbedChunks(service, chunks).result.Success? ==>
              |EmbedChunks(service, chunks).calls| == |chunks|
              && forall k :: 0 <= k < |chunks| ==>
                   service.provider(Request(service.model, chunks[k])).Embeddings?
    ensures EmbedChunks(service, chunks).result.Failure? ==>
              var calls := EmbedChunks(service, chunks).calls;
              calls != [] && service.provider(calls[|calls| - 1]).Failed?
              && EmbedChunks(service, chunks).result.error
                 == ProviderFailure(service.provider(calls[|calls| - 1]).reason)
  {
    if chunks != [] {
      var tail := chunks[1..];
      EmbedChunksRequests(service, tail);
      var request := Request(service.model, chunks[0]);
      if service.provider(request).Embeddings? {
        var rest := EmbedChunks(service, tail);
        var t := EmbedChunks(service, chunks);
        assert t.calls == [request] + rest.calls;
        forall k | 1 <= k < |t.calls| ensures t.calls[k] == Request(service.model, chunks[k]) {
          assert t.calls[k] == rest.calls[k - 1] && tail[k - 1] == chunks[k];
        }
        if t.result.Success? {
          forall k | 1 <= k < |chunks|
            ensures service.provider(Request(service.model, chunks[k])).Embeddings?
          {
            assert tail[k - 1] == chunks[k];
          }
        }
      }
    }
  }

  /** Against a provider that embeds each text with `f`, the chunks give `f` of every text of
      their concatenation, in order, with one request per chunk. */
  lemma {:induction false} EmbedChunksPointwise(service: EmbeddingService, f: string -> Vector,
                                                chunks: seq<seq<string>>)
    requires Answers(service, f)
    ensures EmbedChunks(service, chunks).result == Success(EmbedAll(f, Concat(chunks)))
    ensures |EmbedChunks(service, chunks).calls| == |chunks|
  {
    if chunks != [] {
      EmbedChunksPointwise(service, f, chunks[1..]);
      EmbedAllAppend(f, chunks[0], Concat(chunks[1..]));
    }
  }

  lemma EmbedAllAppend(f: string -> Vector, a: seq<string>, b: seq<string>)
    ensures EmbedAll(f, a + b) == EmbedAll(f, a) + EmbedAll(f, b)
  {
    assert |EmbedAll(f, a + b)| == |EmbedAll(f, a) + EmbedAll(f, b)|;
    forall k | 0 <= k < |a + b| ensures EmbedAll(f, a + b)[k] == (EmbedAll(f, a) + EmbedAll(f, b))[k] {
      if k >= |a| {
        assert (a + b)[k] == b[k - |a|];
      }
    }
  }

  /** Against a provider that answers one vector per input, a success holds exactly one vector
      per text of the chunks. */
  lemma {:induction false} EmbedChunksOnePerInput(service: EmbeddingService, chunks: seq<seq<string>>)
    requires OnePerInput(service)
    ensures EmbedChunks(service, chunks).result.Success? ==>
              |EmbedChunks(service, chunks).result.value| == |Concat(chunks)|
  {
    if chunks != [] {
      EmbedChunksOnePerInput(service, chunks[1..]);
      var request := Request(service.model, chunks[0]);
      if service.provider(request).Embeddings? {
        assert |service.provider(request).data| == |chunks[0]|;
      }
    }
  }

  /** The batch makes no request and answers `[]` exactly when every text is blank. */
  lemma BatchOfBlankTexts(service: EmbeddingService, texts: seq<string>)
    ensures EmbedBatch(service, texts) == Traced(Success([]), [])
            <==> forall i :: 0 <= i < |texts| ==> AllWhitespace(texts[i])
  {
    CleanEmpty(texts);
    var cleaned := Clean(texts);
    if cleaned != [] {
      EmbedChunksRequests(service, Chunks(cleaned, BatchSize));
    }
  }

  /** The batch's k-th request carries the k-th slice of `BatchSize` cleaned texts, each
      request holds between one and `BatchSize` texts, and there are at most
      ceil(|cleaned| / BatchSize) requests, exactly that many on success. */
  lemma BatchRequests(service: EmbeddingService, texts: seq<string>)
    ensures var calls := EmbedBatch(service, texts).calls;
            forall k :: 0 <= k < |calls| ==>
              k < |Chunks(Clean(texts), BatchSize)|
              && calls[k] == Request(service.model, Chunks(Clean(texts), BatchSize)[k])
              && 0 < |calls[k].input| <= BatchSize
    ensures |EmbedBatch(service, texts).calls| <= CeilDiv(|Clean(texts)|, BatchSize)
    ensures EmbedBatch(service, texts).result.Success? ==>
              |EmbedBatch(service, texts).calls| == CeilDiv(|Clean(texts)|, BatchSize)
  {
    var cleaned := Clean(texts);
    if cleaned != [] {
      EmbedChunksRequests(service, Chunks(cleaned, BatchSize));
    }
  }

  /** A failed batch reports the reason of the one request that raised, which is the last. */
  lemma BatchFailure(service: EmbeddingService, texts: seq<string>)
    ensures var t := EmbedBatch(service, texts);
            t.result.Failure? ==>
              t.calls != [] && service.provider(t.calls[|t.calls| - 1]).Failed?
              && t.result.error == ProviderFailure(service.provider(t.calls[|t.calls| - 1]).reason)
  {
    var cleaned := Clean(texts);
    if cleaned != [] {
      EmbedChunksRequests(service, Chunks(cleaned, BatchSize));
    }
  }

  /** Against a provider that embeds each text with `f`, the batch is `f` of each cleaned text,
      in order. */
  lemma BatchPointwise(service: EmbeddingService, f: string -> Vector, texts: seq<string>)
    requires Answers(service, f)
    ensures EmbedBatch(service, texts).result == Success(EmbedAll(f, Clean(texts)))
  {
    var cleaned := Clean(texts);
    if cleaned != [] {
      EmbedChunksPointwise(service, f, Chunks(cleaned, BatchSize));
    }
  }

  /** Against a provider that answers one vector per input, a successful batch holds one
      vector per cleaned text. */
  lemma BatchOnePerInput(service: EmbeddingService, texts: seq<string>)
    requires OnePerInput(service)
    ensures EmbedBatch(service, texts).result.Success? ==>
              |EmbedBatch(service, texts).result.value| == |Clean(texts)|
  {
    var cleaned := Clean(texts);
    if cleaned != [] {
      EmbedChunksOnePerInput(service, Chunks(cleaned, BatchSize));
    }
  }
}
