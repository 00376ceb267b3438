/**
 basic_fbstring::find: a search that compares the last character first and skips by a distance computed
 when it is first needed.  Positions are 64-bit unsigned numbers.
 */
module StringFind {

  const WORD: nat := 0x1_0000_0000_0000_0000
  const NPOS: nat := WORD - 1

  /** The needle stands in the haystack at `i`. */
  predicate MatchAt<E(==)>(haystack: seq<E>, needle: seq<E>, i: nat) {
    i + |needle| <= |haystack| && haystack[i..i + |needle|] == needle
  }

  /** The last character of the needle does not occur among the `skip - 1` before it. */
  predicate SkipOk<E(==)>(needle: seq<E>, skip: nat) {
    && 0 < skip <= |needle|
    && forall m | |needle| - skip <= m < |needle| - 1 :: needle[m] != needle[|needle| - 1]
  }

  lemma MatchChar<E>(haystack: seq<E>, needle: seq<E>, i: nat, j: nat)
    requires MatchAt(haystack, needle, i) && j < |needle|
    ensures haystack[i + j] == needle[j]
  {
    assert haystack[i..i + |needle|][j] == needle[j];
  }

  /** No match begins within a skip from a place where the last character fits. */
  lemma SkipMissesNothing<E>(haystack: seq<E>, needle: seq<E>, i: nat, skip: nat, k: nat)
    requires SkipOk(needle, skip) && i + |needle| <= |haystack|
    requires haystack[i + |needle| - 1] == needle[|needle| - 1] && i < k < i + skip
    ensures !MatchAt(haystack, needle, k)
  {
    if MatchAt(haystack, needle, k) {
      MatchChar(haystack, needle, k, |needle| - 1 - (k - i));
    }
  }

  method ComputeSkip<E(==)>(needle: seq<E>) returns (skip: nat)
    requires needle != []
    ensures SkipOk(needle, skip)
    ensures skip < |needle| ==> needle[|needle| - 1 - skip] == needle[|needle| - 1]
  {
    var last := |needle| - 1;
    skip := 1;
    while skip <= last && needle[last - skip] != needle[last]
      invariant SkipOk(needle, skip)
    {
      skip := skip + 1;
    }
  }

  /** The least position at or after `pos` where the needle stands, or npos.  The sum of `pos` and the needle's
      length wraps around. */
  method Find<E(==)>(haystack: seq<E>, needle: seq<E>, pos: nat) returns (r: nat)
    requires |haystack| < NPOS && |needle| < WORD && pos < WORD
    ensures r != NPOS ==> pos <= r && MatchAt(haystack, needle, r)
    ensures forall k: nat | pos <= k < r :: !MatchAt(haystack, needle, k)
  {
    var size, nsize := |haystack|, |needle|;
    var sum := (nsize + pos) % WORD;
    if sum > size || sum < pos {
      return NPOS;
    }
    if nsize == 0 {
      assert haystack[pos..pos] == needle;
      return pos;
    }
    var last := nsize - 1;
    var lastNeedle := needle[last];
    var skip: nat := 0;
    var i, iEnd := pos, size - last;
    while i < iEnd
      invariant pos <= i
      invariant skip == 0 || SkipOk(needle, skip)
      invariant forall k: nat | pos <= k < i :: !MatchAt(haystack, needle, k)
      decreases iEnd - i
    {
      ghost var start := i;
      while haystack[i + last] != lastNeedle
        invariant start <= i < iEnd
        invariant forall k: nat | pos <= k < i :: !MatchAt(haystack, needle, k)
        decreases iEnd - i
      {
        LastDiffers(haystack, needle, i);
        i := i + 1;
        if i == iEnd {
          return NPOS;
        }
      }
      var j := 0;
      while haystack[i + j] == needle[j]
        invariant 0 <= j < nsize
        invariant haystack[i..i + j] == needle[..j]
        decreases nsize - j
      {
        assert haystack[i..i + j + 1] == haystack[i..i + j] + [haystack[i + j]];
        assert needle[..j + 1] == needle[..j] + [needle[j]];
        j := j + 1;
        if j == nsize {
          assert needle[..j] == needle;
          return i;
        }
      }
      CharDiffers(haystack, needle, i, j);
      if skip == 0 {
        skip := ComputeSkip(needle);
      }
      forall k: nat | i < k < i + skip
        ensures !MatchAt(haystack, needle, k)
      {
        SkipMissesNothing(haystack, needle, i, skip, k);
      }
      i := i + skip;
    }
    return NPOS;
  }

  lemma LastDiffers<E>(haystack: seq<E>, needle: seq<E>, i: nat)
    requires needle != [] && i + |needle| <= |haystack| && haystack[i + |needle| - 1] != needle[|needle| - 1]
    ensures !MatchAt(haystack, needle, i)
  {
    CharDiffers(haystack, needle, i, |needle| - 1);
  }

  lemma CharDiffers<E>(haystack: seq<E>, needle: seq<E>, i: nat, j: nat)
    requires j < |needle| && i + |needle| <= |haystack| && haystack[i + j] != needle[j]
    ensures !MatchAt(haystack, needle, i)
  {
    if MatchAt(haystack, needle, i) {
      MatchChar(haystack, needle, i, j);
    }
  }
}
