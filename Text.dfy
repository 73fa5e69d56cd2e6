/** Python's `str.strip()` with no argument, over Dafny strings. */
module Text {

  /** The code points CPython's `str.strip()` removes: those `str.isspace()` accepts. */
  predicate IsWhitespace(c: char) {
    var n := c as int;
    || n == 0x20
    || 0x09 <= n <= 0x0D
    || 0x1C <= n <= 0x1F
    || n == 0x85 || n == 0xA0 || n == 0x1680
    || 0x2000 <= n <= 0x200A
    || n == 0x2028 || n == 0x2029 || n == 0x202F || n == 0x205F || n == 0x3000
  }

  predicate AllWhitespace(s: string) {
    forall i :: 0 <= i < |s| ==> IsWhitespace(s[i])
  }

  /** The first index at or after `i` whose character is not whitespace, or `|s|`. */
  function SkipLeading(s: string, i: nat): (k: nat)
    requires i <= |s|
    ensures i <= k <= |s|
    ensures forall j :: i <= j < k ==> IsWhitespace(s[j])
    ensures k < |s| ==> !IsWhitespace(s[k])
    decreases |s| - i
  {
    if i < |s| && IsWhitespace(s[i]) then SkipLeading(s, i + 1) else i
  }

  /** One past the last index in `[lo, hi)` whose character is not whitespace, or `lo`. */
  function SkipTrailing(s: string, lo: nat, hi: nat): (k: nat)
    requires lo <= hi <= |s|
    ensures lo <= k <= hi
    ensures forall j :: k <= j < hi ==> IsWhitespace(s[j])
    ensures k > lo ==> !IsWhitespace(s[k - 1])
    decreases hi
  {
    if hi > lo && IsWhitespace(s[hi - 1]) then SkipTrailing(s, lo, hi - 1) else hi
  }

  /** `s.strip()`: what is left when both whitespace ends are dropped; empty exactly for a
      blank text, and otherwise starting and ending with a character that is not whitespace. */
  function Strip(s: string): (r: string)
    ensures |r| <= |s|
    ensures r == [] <==> AllWhitespace(s)
    ensures r != [] ==> !IsWhitespace(r[0]) && !IsWhitespace(r[|r| - 1])
  {
    var lo := SkipLeading(s, 0);
    var hi := SkipTrailing(s, lo, |s|);
    assert lo == hi ==> AllWhitespace(s) by {
      if lo == hi {
        forall j | 0 <= j < |s| ensures IsWhitespace(s[j]) {
          if j >= hi { } else { }
        }
      }
    }
    s[lo..hi]
  }

  /** What stripping removes: the result is the slice `s[lo:hi]`, and everything outside it is
      whitespace. With the ends of the result not being whitespace, this is exactly `s.strip()`. */
  lemma StripIsSlice(s: string)
    ensures exists lo, hi :: && 0 <= lo <= hi <= |s| && Strip(s) == s[lo..hi]
                             && AllWhitespace(s[..lo]) && AllWhitespace(s[hi..])
  {
    var lo := SkipLeading(s, 0);
    var hi := SkipTrailing(s, lo, |s|);
    assert Strip(s) == s[lo..hi];
    assert AllWhitespace(s[..lo]) && AllWhitespace(s[hi..]);
  }

  /** Stripping is idempotent: a stripped text strips to itself. */
  lemma StripIdempotent(s: string)
    ensures Strip(Strip(s)) == Strip(s)
  {
  }
}
