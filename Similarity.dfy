/** Cosine similarity of two embedding vectors, with scores as real numbers. */
module Similarity {
  import opened Errors

  type Vector = seq<real>

  /** `np.dot` of two vectors of the same length. */
  function Dot(a: Vector, b: Vector): real
    requires |a| == |b|
  {
    if a == [] then 0.0 else a[0] * b[0] + Dot(a[1..], b[1..])
  }

  predicate IsZero(a: Vector) {
    forall i :: 0 <= i < |a| ==> a[i] == 0.0
  }

  /** What the model assumes of `np.linalg.norm`, which it takes as a parameter:
      never negative, and zero exactly for the all-zero vector. */
  ghost predicate IsNorm(norm: Vector -> real) {
    forall v :: norm(v) >= 0.0 && (norm(v) == 0.0 <==> IsZero(v))
  }

  /** `EmbeddingService.cosine_similarity`: dot(a, b) / (|a| |b|), 0.0 when either norm is 0,
      and the ValueError `np.dot` raises for vectors of different lengths. */
  function CosineSimilarity(norm: Vector -> real, a: Vector, b: Vector): (r: Result<real>)
    ensures r.Failure? <==> |a| != |b|
    ensures r.Failure? ==> r.error == DimensionMismatch
  {
    if |a| != |b| then Failure(DimensionMismatch)
    else
      var dot := Dot(a, b);
      var norm1 := norm(a);
      var norm2 := norm(b);
      if norm1 == 0.0 || norm2 == 0.0 then Success(0.0)
      else Success(dot / (norm1 * norm2))
  }

  lemma {:induction false} DotSymmetric(a: Vector, b: Vector)
    requires |a| == |b|
    ensures Dot(a, b) == Dot(b, a)
  {
    if a != [] {
      DotSymmetric(a[1..], b[1..]);
    }
  }

  /** Swapping the two vectors changes neither the score nor whether an error is raised. */
  lemma CosineSimilaritySymmetric(norm: Vector -> real, a: Vector, b: Vector)
    ensures CosineSimilarity(norm, a, b) == CosineSimilarity(norm, b, a)
  {
    if |a| == |b| {
      DotSymmetric(a, b);
      assert norm(a) * norm(b) == norm(b) * norm(a);
    }
  }

  /** The zero-norm policy: the score is exactly 0.0 when either vector is all zeros; otherwise
      it is dot / (|a| |b|) with a positive denominator, so it is 0.0 only for orthogonal vectors. */
  lemma CosineSimilarityZeroPolicy(norm: Vector -> real, a: Vector, b: Vector)
    requires IsNorm(norm) && |a| == |b|
    ensures IsZero(a) || IsZero(b) ==> CosineSimilarity(norm, a, b) == Success(0.0)
    ensures !IsZero(a) && !IsZero(b) ==>
              && norm(a) * norm(b) > 0.0
              && CosineSimilarity(norm, a, b) == Success(Dot(a, b) / (norm(a) * norm(b)))
    ensures CosineSimilarity(norm, a, b) == Success(0.0) <==> IsZero(a) || IsZero(b) || Dot(a, b) == 0.0
  {
  }
}
