# Semantic search over embeddings

A Dafny model of the semantic-search engine of `app/embedding_utils.py`. It covers the
following parts of the code:

- `EmbeddingService.create_embedding`: strip the text, refuse a blank one, and make one
  provider request for the rest.
- `EmbeddingService.create_embeddings_batch`:
  - strip the texts and drop the blank ones;
  - send the rest in slices of at most 2048 texts;
  - concatenate the answers in order.
  - An exception discards the partial results.
- `EmbeddingService.cosine_similarity`: dot product over the product of the norms, with 0.0
  when either norm is zero.
- `EmbeddingService.find_similar_texts`:
  - score every candidate;
  - keep the pairs that reach the threshold;
  - sort them descending, stably;
  - return the slice `[:top_k]`.
- The module-level `semantic_search`.

The embedding provider (the OpenAI client) is a parameter of the model. It is a total function
from a request (model name, list of texts) to either a list of vectors or a failure. Every
operation that talks to it returns the requests it made, in order, next to its result, so
"no request", "exactly one request" and "one request per slice" are stated about values. The
Euclidean norm (`np.linalg.norm`) is also a parameter. Where its properties are needed, the
lemmas require that it is never negative and is zero exactly for the all-zero vector. Scores
are real numbers.

Modules:
- `Errors`: the exceptions that escape, and `Result`.
- `Text`: Python's `str.strip()`, with CPython's whitespace table.
- `Batching`: slicing into chunks, and ceiling division.
- `Similarity`: the dot product and the cosine similarity.
- `Ranking`: the candidate scan, the stable descending sort, the `[:k]` slice, and the
  `FindSimilarTexts` loop.
- `Embedding`: the single and batch embedding, with the `CreateEmbeddingsBatch` loop.
- `Search`: `semantic_search` as written, and as evidently intended.

The two loops of the source are methods proved equal to specification functions. The
specification functions carry the properties:
- `Ranking.FindSimilarTexts` is proved equal to `Ranking.FindSimilar`.
- `Embedding.CreateEmbeddingsBatch` is proved equal to `Embedding.EmbedBatch`.

Three behaviours of the code that a caller may not expect:
- A negative `top_k` keeps all but the last `-top_k` matches, as Python's slice does. It does
  not give an empty result.
- `find_similar_texts` does not check that it has as many texts as embeddings. It fails
  (IndexError) only when a candidate that reaches the threshold has no text at its index.
  Extra texts are ignored.
- `semantic_search` pairs the embeddings of the cleaned documents with the documents as given
  (see Findings).

## Model

| member | source | states |
|---|---|---|
| Text.Strip | app/embedding_utils.py:49 | the stripped text is empty exactly when every character is whitespace; otherwise it starts and ends with a non-whitespace character and is no longer than the input |
| Text.StripIsSlice | app/embedding_utils.py:49 | the stripped text is a slice `s[lo:hi]` of the input with only whitespace outside it, so stripping removes nothing but edge whitespace |
| Text.StripIdempotent | app/embedding_utils.py:80 | stripping a stripped text changes nothing |
| Embedding.CreateEmbedding | app/embedding_utils.py:49-62 | fails with the empty-text error exactly for a blank text and then makes no request; otherwise makes exactly one request, carrying the stripped text, and returns the first vector of the answer, re-raises the provider's failure, or fails with IndexError on an empty answer |
| Embedding.CreateEmbeddingPointwise | app/embedding_utils.py:54-59 | against a provider that embeds each text with f, a non-blank text gets f of its stripped form |
| Embedding.Clean | app/embedding_utils.py:80 | every cleaned text is non-empty and already stripped, and there are no more of them than inputs |
| Embedding.KeptIndices | app/embedding_utils.py:80 | the kept indices are in range and strictly increasing, and an index is kept exactly when its text is not blank |
| Embedding.CleanIsOrderedSubsequence | app/embedding_utils.py:80 | the k-th cleaned text is the stripped text at the k-th kept index, so cleaning keeps order |
| Embedding.CleanEmpty | app/embedding_utils.py:80-83 | nothing survives cleaning exactly when every text is blank, the empty list included |
| Embedding.CleanWithoutBlanks | app/embedding_utils.py:80 | with no blank text nothing is dropped, and the i-th cleaned text is the i-th text stripped |
| Batching.Chunks | app/embedding_utils.py:89-90 | the slices concatenate back to the list, each holds between 1 and the batch size items, all but the last are full, and there are ceil(n / size) of them |
| Batching.CeilDivIsCeiling | app/embedding_utils.py:89 | the number of loop iterations is the least count of slices that covers n items |
| Batching.ChunksFirst | app/embedding_utils.py:89-90 | the first slice is `s[0:size]` and the rest are the slices of what follows |
| Embedding.CreateEmbeddingsBatch | app/embedding_utils.py:78-106 | the loop over offsets 0, 2048, 4096, ... gives the same result and the same requests as the batch specification |
| Embedding.EmbedChunksRequests | app/embedding_utils.py:89-98 | the k-th request carries the k-th slice; every request before the last succeeded; on success every slice was sent; on failure the last request raised and its reason is what is re-raised |
| Embedding.EmbedChunksPointwise | app/embedding_utils.py:92-98 | against a provider that embeds each text with f, the slices give f of every text of their concatenation, in order, one request per slice |
| Embedding.EmbedChunksOnePerInput | app/embedding_utils.py:97-98 | against a provider that answers one vector per input, a success holds one vector per text sent |
| Embedding.BatchOfBlankTexts | app/embedding_utils.py:82-83 | the batch answers [] with no request exactly when every text is blank |
| Embedding.BatchRequests | app/embedding_utils.py:86-95 | the k-th request carries the k-th slice of the cleaned texts, each between 1 and 2048 texts; there are at most ceil(n / 2048) requests, exactly that many on success |
| Embedding.BatchFailure | app/embedding_utils.py:104-106 | a failed batch re-raises the reason of the request that failed, which is the last one made |
| Embedding.BatchPointwise | app/embedding_utils.py:97-102 | against a provider that embeds each text with f, the batch is f of each cleaned text, in order |
| Embedding.BatchOnePerInput | app/embedding_utils.py:97-102 | against a provider that answers one vector per input, a successful batch holds exactly one vector per cleaned text |
| Similarity.CosineSimilarity | app/embedding_utils.py:124-132 | fails with a dimension error exactly when the vectors differ in length, and with no other error |
| Similarity.DotSymmetric | app/embedding_utils.py:124 | the dot product is symmetric |
| Similarity.CosineSimilaritySymmetric | app/embedding_utils.py:124-132 | swapping the two vectors changes neither the score nor the error |
| Similarity.CosineSimilarityZeroPolicy | app/embedding_utils.py:128-131 | a zero vector scores exactly 0.0; otherwise the denominator is positive and the score is dot / (norm a * norm b); the score is 0.0 exactly when a vector is zero or the two are orthogonal |
| Ranking.TakePrefix | app/embedding_utils.py:167 | `s[:k]` is a prefix of length min(k, len) for k >= 0, and of length max(len + k, 0) for negative k |
| Ranking.SortByScoreDescCorrect | app/embedding_utils.py:164 | the sort is non-increasing in score, a permutation, and keeps the order of the matches within each score |
| Ranking.StableSortUnique | app/embedding_utils.py:164 | two non-increasing lists that agree, score by score, on the order of their matches are equal, so any stable descending sort gives the same list |
| Ranking.CandidatesFailureSticks | app/embedding_utils.py:157-161 | once the scan has raised, later candidates change nothing |
| Ranking.FindSimilarTexts | app/embedding_utils.py:155-167 | the scan-sort-slice method gives the same result as the ranking specification |
| Ranking.CandidatesCharacterized | app/embedding_utils.py:157-161 | the scan returns normally exactly when every embedding has the query's length and every passing index has a text; it then collects `(texts[i], score_i)` for exactly the passing indices, each once, in index order |
| Ranking.FindSimilarRaises | app/embedding_utils.py:157-161 | the ranking returns normally exactly when the scan does |
| Ranking.FindSimilarOrdered | app/embedding_utils.py:164-167 | the result is non-increasing, and within each score it is a prefix of the scan order |
| Ranking.FindSimilarKeepsBest | app/embedding_utils.py:164-167 | the result is a prefix of the candidates sorted by descending score, and no candidate left out scores higher than any match returned |
| Ranking.FindSimilarMembers | app/embedding_utils.py:157-167 | every returned pair reaches the threshold and is `(texts[i], score of embedding i)` for some index i, and no candidate is returned more often than it was collected |
| Ranking.FindSimilarLength | app/embedding_utils.py:164-167 | for top_k >= 0 the result holds min(top_k, number of passing candidates) pairs |
| Search.SemanticSearchSteps | app/embedding_utils.py:218-233 | the query embedding, the batch and the ranking, in that order, give exactly what `semantic_search` as written gives, with the requests of both embeddings |
| Search.BlankQuery | app/embedding_utils.py:221 | a blank query fails with the empty-text error before any request, and only a blank query does so with no request |
| Search.SearchRequests | app/embedding_utils.py:221-222 | a failed query embedding ends the search with its own error and requests; otherwise the requests are the query's single one followed by the batch's |
| Search.NonBlankIsKept | app/embedding_utils.py:80 | the surviving documents are the documents at the kept indices, in order |
| Search.CleanIsStrippedNonBlank | app/embedding_utils.py:80 | the cleaned documents are the non-blank documents, each stripped |
| Search.AsWrittenWithoutBlanks | app/embedding_utils.py:222-228 | with no blank document, the search as written and as intended coincide |
| Search.SearchPointwise | app/embedding_utils.py:221-231 | against a provider that embeds each text with f, the search ranks f of the cleaned documents against f of the stripped query |
| Search.RankOwnEmbeddings | app/embedding_utils.py:157-161 | when each embedding is computed from its own label, the ranking returns normally exactly when all have the query's dimension, and each match pairs a label with the score of its own embedding |
| Search.SemanticSearchAligned | app/embedding_utils.py:221-231 | as intended, each returned document carries the score of its own embedding, and the search returns normally exactly when every surviving document's embedding has the query's dimension |
| Search.BlankDocumentMisaligns | app/embedding_utils.py:222-228 | as written, a blank first document is returned with the score that belongs to the next document; as intended, that next document is returned |

## Left out

- The API-key lookup and the client construction (app/embedding_utils.py:30-35) read the
  environment. The model starts from a service value holding a model name and a provider.
- Logging calls are left out.
- The `model` argument is passed through unchanged. The default arguments (`top_k=5`,
  `threshold=0.7`, `model="text-embedding-3-small"`) are default parameter values of
  `Ranking.FindSimilarTexts` and `Search.SemanticSearchSteps`. The service value
  `Embedding.EmbeddingService` always names its model. The default of the constructor
  (app/embedding_utils.py:23) is the constant `Embedding.DefaultModel`.
- `create_embedding` sends the stripped text as a bare string. The model sends it as a
  one-text request. The provider is assumed to answer a bare string and a one-item list in the
  same way.
- Embeddings and scores are real numbers, not float64. `np.linalg.norm` is a parameter: the
  square root is not computed.
- Similarity.CosineSimilarity: the score is not proved to lie in [-1, 1], and a vector is not
  proved to score 1.0 against itself. Both need the square root and the Cauchy-Schwarz
  inequality over the reals.
- The convenience functions `create_embedding` and `create_embeddings_batch`
  (app/embedding_utils.py:170-196) build a service and delegate to the methods modelled here.
- A provider answer whose vector count differs from the number of texts sent is taken as
  given, as the code does. The length results assume a provider that answers one vector per
  text.
- The in-place `list.sort` is modelled as a stable insertion sort on a sequence.
  `Ranking.StableSortUnique` shows that every stable descending sort gives the same list.
- `app/main.py` and the connection scripts are not part of this model: the HTTP routes, the
  database pagination, the chat set-up, and the smoke tests that only call external services.

## Findings

| source | as written | input that shows it | evidently intended | confidence | as-written member | corrected member |
|---|---|---|---|---|---|---|
| app/embedding_utils.py:222-228 | `semantic_search` passes the embeddings of the cleaned documents, with blank ones dropped, to `find_similar_texts` together with the original `documents` list. The two are then paired by raw index. | documents `["", "budget", "weather"]`, query "budget", threshold 0.5, and a provider giving "weather" the opposite vector of every other text: the result is `[("", 1.0)]`, the blank document with the score of "budget" | pair each embedding with the document it was computed from, that is the non-blank documents | high; not executed | Search.BlankDocumentMisaligns | Search.SemanticSearchAligned |
