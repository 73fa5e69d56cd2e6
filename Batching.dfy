/** Cutting a list into consecutive slices of bounded size, as `range(0, len(s), size)` does. */
module Batching {

  /** How many slices of at most `size` items `n` items need. */
  function CeilDiv(n: nat, size: nat): nat
    requires size > 0
    decreases n
  {
    if n == 0 then 0 else if n <= size then 1 else 1 + CeilDiv(n - size, size)
  }

  /** CeilDiv is the ceiling of n / size: the least c with c * size >= n. */
  lemma {:induction false} CeilDivIsCeiling(n: nat, size: nat)
    requires size > 0
    ensures CeilDiv(n, size) * size >= n
    ensures n > 0 ==> (CeilDiv(n, size) - 1) * size < n
    decreases n
  {
    if n > size {
      var c := CeilDiv(n - size, size);
      CeilDivIsCeiling(n - size, size);
      assert CeilDiv(n, size) * size == c * size + size;
      assert (CeilDiv(n, size) - 1) * size == c * size;
      assert c >= 1;
      assert (c - 1) * size == c * size - size;
    }
  }

  /** The slices laid end to end. */
  function Concat<T>(chunks: seq<seq<T>>): seq<T> {
    if chunks == [] then [] else chunks[0] + Concat(chunks[1..])
  }

  /** The slices `s[i:i + size]` for `i` in `range(0, len(s), size)`: every slice but the
      last is full, the last is not empty, and laid end to end they give `s` back. */
  function Chunks<T>(s: seq<T>, size: nat): (r: seq<seq<T>>)
    requires size > 0
    ensures Concat(r) == s
    ensures forall k :: 0 <= k < |r| ==> 0 < |r[k]| <= size
    ensures forall k :: 0 <= k < |r| - 1 ==> |r[k]| == size
    ensures |r| == CeilDiv(|s|, size)
    decreases |s|
  {
    if s == [] then []
    else if |s| <= size then [s]
    else
      var rest := Chunks(s[size..], size);
      assert ([s[..size]] + rest)[1..] == rest;
      [s[..size]] + rest
  }

  /** The first slice is the first `size` items (or all of them); the rest are the slices of what follows. */
  lemma ChunksFirst<T>(s: seq<T>, size: nat)
    requires size > 0 && s != []
    ensures var n := if |s| <= size then |s| else size;
            Chunks(s, size) == [s[..n]] + Chunks(s[n..], size)
  {
    if |s| <= size {
      assert s[|s|..] == [];
      assert s[..|s|] == s;
    }
  }
}
