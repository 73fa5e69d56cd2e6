/** `EmbeddingService.find_similar_texts`: score, keep what reaches the threshold, sort, cut. */
module Ranking {
  import opened Errors
  import opened Similarity

  /** One `(text, similarity)` tuple of a result. */
  datatype Match = Match(text: string, score: real)

  predicate NonIncreasing(s: seq<Match>) {
    forall i, j :: 0 <= i < j < |s| ==> s[i].score >= s[j].score
  }

  /** The matches of `s` whose score is `x`, in their order in `s`. */
  function WithScore(s: seq<Match>, x: real): seq<Match> {
    if s == [] then []
    else (if s[0].score == x then [s[0]] else []) + WithScore(s[1..], x)
  }

  /** `t` keeps, for every score, the matches of `s` with that score in the same order. */
  ghost predicate StablyReordered(s: seq<Match>, t: seq<Match>) {
    forall x :: WithScore(t, x) == WithScore(s, x)
  }

  /** Puts `m` before the first match of `s` that does not score higher. */
  function InsertByScore(m: Match, s: seq<Match>): seq<Match> {
    if s == [] || m.score >= s[0].score then [m] + s
    else [s[0]] + InsertByScore(m, s[1..])
  }

  /** `list.sort(key=lambda x: x[1], reverse=True)`: descending by score, and stable, as
      CPython's sort is; an insertion sort stands for it (see StableSortUnique). */
  function SortByScoreDesc(s: seq<Match>): seq<Match> {
    if s == [] then [] else InsertByScore(s[0], SortByScoreDesc(s[1..]))
  }

  /** Python's `s[:k]`: the first k items, and for negative k all but the last -k. */
  function TakePrefix<T>(s: seq<T>, k: int): (r: seq<T>)
    ensures k >= 0 ==> |r| == if k <= |s| then k else |s|
    ensures k < 0 ==> |r| == if -k <= |s| then |s| + k else 0
    ensures r == s[..|r|]
  {
    if k >= 0 then (if k <= |s| then s[..k] else s)
    else (if -k <= |s| then s[..|s| + k] else [])
  }

  lemma WithScoreOfCons(m: Match, s: seq<Match>, x: real)
    ensures WithScore([m] + s, x) == (if m.score == x then [m] else []) + WithScore(s, x)
  {
    assert ([m] + s)[1..] == s;
  }

  lemma {:induction false} WithScoreMembers(s: seq<Match>, x: real)
    ensures forall m :: m in WithScore(s, x) ==> m in s && m.score == x
  {
    if s != [] {
      WithScoreMembers(s[1..], x);
    }
  }

  lemma {:induction false} InsertSorted(m: Match, s: seq<Match>)
    requires NonIncreasing(s)
    ensures NonIncreasing(InsertByScore(m, s))
  {
    if s != [] && m.score < s[0].score {
      var rest := InsertByScore(m, s[1..]);
      InsertSorted(m, s[1..]);
      assert rest[0] == m || rest[0] == s[1];
      assert forall k :: 0 <= k < |rest| ==> s[0].score >= rest[0].score >= rest[k].score;
    }
  }

  lemma {:induction false} InsertPermutes(m: Match, s: seq<Match>)
    ensures multiset(InsertByScore(m, s)) == multiset(s) + multiset{m}
  {
    if s != [] && m.score < s[0].score {
      InsertPermutes(m, s[1..]);
      assert s == [s[0]] + s[1..];
    }
  }

  lemma {:induction false} InsertWithScore(m: Match, s: seq<Match>, x: real)
    ensures WithScore(InsertByScore(m, s), x) == (if m.score == x then [m] else []) + WithScore(s, x)
  {
    if s == [] || m.score >= s[0].score {
      WithScoreOfCons(m, s, x);
    } else {
      var t := s[1..];
      var rest := InsertByScore(m, t);
      InsertWithScore(m, t, x);
      WithScoreOfCons(s[0], rest, x);
      var a: seq<Match> := if m.score == x then [m] else [];
      var b: seq<Match> := if s[0].score == x then [s[0]] else [];
      assert WithScore(s, x) == b + WithScore(t, x);
      assert WithScore(InsertByScore(m, s), x) == b + (a + WithScore(t, x));
      Commute(a, b, WithScore(t, x));
    }
  }

  /** At most one of `a` and `b` is non-empty, so their order before `w` does not matter. */
  lemma Commute(a: seq<Match>, b: seq<Match>, w: seq<Match>)
    requires a == [] || b == []
    ensures b + (a + w) == a + (b + w)
  {
    if a == [] {
      assert a + w == w && a + (b + w) == b + w;
    } else {
      assert b + (a + w) == a + w && b + w == w;
    }
  }

  /** The sort gives a non-increasing permutation of its input that keeps equal scores in order. */
  lemma {:induction false} SortByScoreDescCorrect(s: seq<Match>)
    ensures NonIncreasing(SortByScoreDesc(s))
    ensures multiset(SortByScoreDesc(s)) == multiset(s)
    ensures StablyReordered(s, SortByScoreDesc(s))
  {
    if s != [] {
      SortByScoreDescCorrect(s[1..]);
      InsertSorted(s[0], SortByScoreDesc(s[1..]));
      InsertPermutes(s[0], SortByScoreDesc(s[1..]));
      assert s == [s[0]] + s[1..];
      forall x ensures WithScore(SortByScoreDesc(s), x) == WithScore(s, x) {
        InsertWithScore(s[0], SortByScoreDesc(s[1..]), x);
        WithScoreOfCons(s[0], s[1..], x);
      }
    }
  }

  /** Any two non-increasing lists that keep the same order within every score are equal: every
      stable descending sort, CPython's included, gives what SortByScoreDesc gives. */
  lemma {:induction false} StableSortUnique(a: seq<Match>, b: seq<Match>)
    requires NonIncreasing(a) && NonIncreasing(b)
    requires forall x :: WithScore(a, x) == WithScore(b, x)
    ensures a == b
    decreases |a|
  {
    if a == [] || b == [] {
      if a != [] {
        assert a == [a[0]] + a[1..];
        WithScoreOfCons(a[0], a[1..], a[0].score);
      } else if b != [] {
        assert b == [b[0]] + b[1..];
        WithScoreOfCons(b[0], b[1..], b[0].score);
      }
    } else {
      assert a == [a[0]] + a[1..] && b == [b[0]] + b[1..];
      var ka, kb := a[0].score, b[0].score;
      WithScoreOfCons(a[0], a[1..], ka);
      WithScoreOfCons(b[0], b[1..], kb);
      WithScoreMembers(a, kb);
      WithScoreMembers(b, ka);
      assert b[0] in WithScore(a, kb);
      assert a[0] in WithScore(b, ka);
      assert ka == kb;
      assert WithScore(a, ka) == WithScore(b, ka);
      assert WithScore(a, ka) == [a[0]] + WithScore(a[1..], ka);
      assert WithScore(b, ka) == [b[0]] + WithScore(b[1..], ka);
      assert a[0] == WithScore(a, ka)[0] == WithScore(b, ka)[0] == b[0];
      forall x ensures WithScore(a[1..], x) == WithScore(b[1..], x) {
        WithScoreOfCons(a[0], a[1..], x);
        WithScoreOfCons(b[0], b[1..], x);
        var head := if a[0].score == x then [a[0]] else [];
        assert head + WithScore(a[1..], x) == head + WithScore(b[1..], x);
        assert WithScore(a[1..], x) == (head + WithScore(a[1..], x))[|head|..];
      }
      StableSortUnique(a[1..], b[1..]);
    }
  }

  /** The loop of find_similar_texts over the first n embeddings: the `(texts[i], score)` pairs
      that reach the threshold, in index order, or the first exception the loop raises. */
  function Candidates(norm: Vector -> real, query: Vector, embeddings: seq<Vector>, texts: seq<string>,
                      threshold: real, n: nat): Result<seq<Match>>
    requires n <= |embeddings|
  {
    if n == 0 then Success([])
    else
      match Candidates(norm, query, embeddings, texts, threshold, n - 1)
      case Failure(e) => Failure(e)
      case Success(c) =>
        match CosineSimilarity(norm, query, embeddings[n - 1])
        case Failure(e) => Failure(e)
        case Success(score) =>
          if score < threshold then Success(c)
          else if n - 1 < |texts| then Success(c + [Match(texts[n - 1], score)])
          else Failure(TextIndexOutOfRange)
  }

  /** What find_similar_texts returns: the candidates, sorted, cut to `top_k`. */
  function FindSimilar(norm: Vector -> real, query: Vector, embeddings: seq<Vector>, texts: seq<string>,
                       topK: int, threshold: real): Result<seq<Match>>
  {
    match Candidates(norm, query, embeddings, texts, threshold, |embeddings|)
    case Failure(e) => Failure(e)
    case Success(c) => Success(TakePrefix(SortByScoreDesc(c), topK))
  }

  /** Once the loop has raised, later embeddings change nothing. */
  lemma {:induction false} CandidatesFailureSticks(norm: Vector -> real, query: Vector, embeddings: seq<Vector>,
                                                  texts: seq<string>, threshold: real, n: nat, m: nat)
    requires n <= m <= |embeddings|
    requires Candidates(norm, query, embeddings, texts, threshold, n).Failure?
    ensures Candidates(norm, query, embeddings, texts, threshold, m) == Candidates(norm, query, embeddings, texts, threshold, n)
    decreases m
  {
    if m > n {
      CandidatesFailureSticks(norm, query, embeddings, texts, threshold, n, m - 1);
    }
  }

  /** `EmbeddingService.find_similar_texts`. */
  method FindSimilarTexts(norm: Vector -> real, queryEmbedding: Vector, textEmbeddings: seq<Vector>,
                          texts: seq<string>, topK: int := 5, threshold: real := 0.7)
    returns (r: Result<seq<Match>>)
    ensures r == FindSimilar(norm, queryEmbedding, textEmbeddings, texts, topK, threshold)
  {
    var similarities: seq<Match> := [];
    var i := 0;
    while i < |textEmbeddings|
      invariant 0 <= i <= |textEmbeddings|
      invariant Candidates(norm, queryEmbedding, textEmbeddings, texts, threshold, i) == Success(similarities)
    {
      var similarity := CosineSimilarity(norm, queryEmbedding, textEmbeddings[i]);
      if similarity.Failure? {
        CandidatesFailureSticks(norm, queryEmbedding, textEmbeddings, texts, threshold, i + 1, |textEmbeddings|);
        return Failure(similarity.error);
      }
      if similarity.value >= threshold {
        if i >= |texts| {
          CandidatesFailureSticks(norm, queryEmbedding, textEmbeddings, texts, threshold, i + 1, |textEmbeddings|);
          return Failure(TextIndexOutOfRange);
        }
        similarities := similarities + [Match(texts[i], similarity.value)];
      }
      i := i + 1;
    }
    similarities := SortByScoreDesc(similarities);
    return Success(TakePrefix(similarities, topK));
  }

  /** The score of one candidate embedding against the query. */
  function Score(norm: Vector -> real, query: Vector, e: Vector): real
    requires |e| == |query|
  {
    CosineSimilarity(norm, query, e).value
  }

  ghost predicate SameDimension(query: Vector, embeddings: seq<Vector>, n: nat) {
    forall i :: 0 <= i < n && i < |embeddings| ==> |embeddings[i]| == |query|
  }

  /** What find_similar_texts needs to return normally: every embedding has the query's
      length, and every candidate that reaches the threshold has a text at its index. */
  ghost predicate Rankable(norm: Vector -> real, query: Vector, embeddings: seq<Vector>, texts: seq<string>,
                           threshold: real, n: nat)
  {
    && SameDimension(query, embeddings, n)
    && forall i :: 0 <= i < n && i < |embeddings| ==> Score(norm, query, embeddings[i]) >= threshold ==> i < |texts|
  }

  /** The indices below n whose score reaches the threshold, in increasing order. */
  function Passing(norm: Vector -> real, query: Vector, embeddings: seq<Vector>, threshold: real, n: nat): seq<nat>
    requires n <= |embeddings| && SameDimension(query, embeddings, n)
  {
    if n == 0 then []
    else
      Passing(norm, query, embeddings, threshold, n - 1)
      + (if Score(norm, query, embeddings[n - 1]) >= threshold then [n - 1] else [])
  }

  /** Rankability of the first n candidates: that of the first n - 1, and the last one has the
      query's length and, if it passes, a text. */
  lemma RankableStep(norm: Vector -> real, query: Vector, embeddings: seq<Vector>, texts: seq<string>,
                     threshold: real, n: nat)
    requires 0 < n <= |embeddings|
    ensures Rankable(norm, query, embeddings, texts, threshold, n)
            <==> && Rankable(norm, query, embeddings, texts, threshold, n - 1)
                 && |embeddings[n - 1]| == |query|
                 && (Score(norm, query, embeddings[n - 1]) >= threshold ==> n - 1 < |texts|)
  {
  }

  /** The loop returns normally exactly when the candidates are rankable, and then it has
      collected `(texts[i], score_i)` for exactly the passing indices i, each once, in index order. */
  lemma {:induction false} CandidatesCharacterized(norm: Vector -> real, query: Vector, embeddings: seq<Vector>,
                                                  texts: seq<string>, threshold: real, n: nat)
    requires n <= |embeddings|
    ensures Candidates(norm, query, embeddings, texts, threshold, n).Success? <==> Rankable(norm, query, embeddings, texts, threshold, n)
    ensures Candidates(norm, query, embeddings, texts, threshold, n).Success? ==>
              var c := Candidates(norm, query, embeddings, texts, threshold, n).value;
              var p := Passing(norm, query, embeddings, threshold, n);
              && |c| == |p|
              && (forall k :: 0 <= k < |p| ==> p[k] < n && p[k] < |texts|
                                               && c[k] == Match(texts[p[k]], Score(norm, query, embeddings[p[k]])))
              && (forall k, l :: 0 <= k < l < |p| ==> p[k] < p[l])
              && (forall i :: 0 <= i < n ==> (i in p <==> Score(norm, query, embeddings[i]) >= threshold))
  {
    if n > 0 {
      CandidatesCharacterized(norm, query, embeddings, texts, threshold, n - 1);
      RankableStep(norm, query, embeddings, texts, threshold, n);
      var prev := Candidates(norm, query, embeddings, texts, threshold, n - 1);
      if prev.Success? && |embeddings[n - 1]| == |query| {
        var score := Score(norm, query, embeddings[n - 1]);
        var p := Passing(norm, query, embeddings, threshold, n - 1);
        if score >= threshold {
          assert Passing(norm, query, embeddings, threshold, n) == p + [n - 1];
        } else {
          assert Passing(norm, query, embeddings, threshold, n) == p;
        }
      }
    }
  }

  predicate IsPrefix(a: seq<Match>, b: seq<Match>) {
    |a| <= |b| && a == b[..|a|]
  }

  lemma {:induction false} WithScoreOfPrefix(s: seq<Match>, n: nat, x: real)
    requires n <= |s|
    ensures IsPrefix(WithScore(s[..n], x), WithScore(s, x))
  {
    if n > 0 {
      assert s == [s[0]] + s[1..];
      assert s[..n] == [s[0]] + s[1..][..n - 1];
      WithScoreOfCons(s[0], s[1..], x);
      WithScoreOfCons(s[0], s[1..][..n - 1], x);
      WithScoreOfPrefix(s[1..], n - 1, x);
    }
  }

  /** find_similar_texts returns normally exactly when the candidates are rankable. */
  lemma FindSimilarRaises(norm: Vector -> real, query: Vector, embeddings: seq<Vector>, texts: seq<string>,
                          topK: int, threshold: real)
    ensures FindSimilar(norm, query, embeddings, texts, topK, threshold).Success?
            <==> Rankable(norm, query, embeddings, texts, threshold, |embeddings|)
  {
    CandidatesCharacterized(norm, query, embeddings, texts, threshold, |embeddings|);
  }

  /** The result is non-increasing by score, and matches with equal scores keep the order in
      which their indices were scanned (the sort is stable). */
  lemma FindSimilarOrdered(norm: Vector -> real, query: Vector, embeddings: seq<Vector>, texts: seq<string>,
                           topK: int, threshold: real)
    requires FindSimilar(norm, query, embeddings, texts, topK, threshold).Success?
    ensures var c := Candidates(norm, query, embeddings, texts, threshold, |embeddings|).value;
            var r := FindSimilar(norm, query, embeddings, texts, topK, threshold).value;
            && NonIncreasing(r)
            && forall x :: IsPrefix(WithScore(r, x), WithScore(c, x))
  {
    var c := Candidates(norm, query, embeddings, texts, threshold, |embeddings|).value;
    var t := SortByScoreDesc(c);
    var r := TakePrefix(t, topK);
    SortByScoreDescCorrect(c);
    forall x ensures IsPrefix(WithScore(r, x), WithScore(c, x)) {
      WithScoreOfPrefix(t, |r|, x);
    }
  }

  /** The result is the top of the sorted candidates: no candidate left out scores higher than
      any match returned. */
  lemma FindSimilarKeepsBest(norm: Vector -> real, query: Vector, embeddings: seq<Vector>, texts: seq<string>,
                             topK: int, threshold: real)
    requires FindSimilar(norm, query, embeddings, texts, topK, threshold).Success?
    ensures var c := Candidates(norm, query, embeddings, texts, threshold, |embeddings|).value;
            var r := FindSimilar(norm, query, embeddings, texts, topK, threshold).value;
            && IsPrefix(r, SortByScoreDesc(c))
            && forall m, k :: m in multiset(c) - multiset(r) && 0 <= k < |r| ==> r[k].score >= m.score
  {
    var c := Candidates(norm, query, embeddings, texts, threshold, |embeddings|).value;
    var t := SortByScoreDesc(c);
    var r := TakePrefix(t, topK);
    SortByScoreDescCorrect(c);
    assert t == r + t[|r|..];
    assert multiset(c) - multiset(r) == multiset(t[|r|..]);
    forall m, k | m in multiset(c) - multiset(r) && 0 <= k < |r| ensures r[k].score >= m.score {
      var j :| 0 <= j < |t[|r|..]| && t[|r|..][j] == m;
      assert t[|r| + j] == m && t[k] == r[k];
    }
  }

  /** Every returned match is `(texts[i], score_i)` for an index i whose score reaches the
      threshold, and no candidate is returned more often than it was collected. */
  lemma FindSimilarMembers(norm: Vector -> real, query: Vector, embeddings: seq<Vector>, texts: seq<string>,
                           topK: int, threshold: real)
    requires FindSimilar(norm, query, embeddings, texts, topK, threshold).Success?
    ensures var c := Candidates(norm, query, embeddings, texts, threshold, |embeddings|).value;
            var r := FindSimilar(norm, query, embeddings, texts, topK, threshold).value;
            && multiset(r) <= multiset(c)
            && forall k :: 0 <= k < |r| ==>
                 && r[k].score >= threshold
                 && (exists i :: && 0 <= i < |embeddings| && i < |texts| && |embeddings[i]| == |query|
                                 && r[k] == Match(texts[i], Score(norm, query, embeddings[i])))
  {
    var n := |embeddings|;
    CandidatesCharacterized(norm, query, embeddings, texts, threshold, n);
    var c := Candidates(norm, query, embeddings, texts, threshold, n).value;
    var p := Passing(norm, query, embeddings, threshold, n);
    var t := SortByScoreDesc(c);
    var r := TakePrefix(t, topK);
    SortByScoreDescCorrect(c);
    assert t == r + t[|r|..];
    assert multiset(t) == multiset(r) + multiset(t[|r|..]);
    forall k | 0 <= k < |r|
      ensures r[k].score >= threshold
      ensures exists i :: && 0 <= i < n && i < |texts| && |embeddings[i]| == |query|
                          && r[k] == Match(texts[i], Score(norm, query, embeddings[i]))
    {
      assert r[k] in multiset(c);
      var j :| 0 <= j < |c| && c[j] == r[k];
      assert p[j] in p;
    }
  }

  /** With a non-negative `top_k` the result holds min(top_k, number of passing indices) matches. */
  lemma FindSimilarLength(norm: Vector -> real, query: Vector, embeddings: seq<Vector>, texts: seq<string>,
                          topK: int, threshold: real)
    requires topK >= 0
    requires FindSimilar(norm, query, embeddings, texts, topK, threshold).Success?
    ensures SameDimension(query, embeddings, |embeddings|)
    ensures var passing := |Passing(norm, query, embeddings, threshold, |embeddings|)|;
            |FindSimilar(norm, query, embeddings, texts, topK, threshold).value|
              == if topK <= passing then topK else passing
  {
    var c := Candidates(norm, query, embeddings, texts, threshold, |embeddings|).value;
    CandidatesCharacterized(norm, query, embeddings, texts, threshold, |embeddings|);
    SortByScoreDescCorrect(c);
    assert |SortByScoreDesc(c)| == |multiset(SortByScoreDesc(c))| == |c|;
  }
}
