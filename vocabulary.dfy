/**
 * The vocabulary-format decision the server makes at start-up: a vocabulary
 * path is loaded with the text loader when `std::string::find` locates ".txt"
 * at or after position `size() - 4`, and with the binary loader otherwise.
 * `size()` is an unsigned `std::size_t`, so for a path shorter than four
 * characters the subtraction wraps around to a position beyond the string.
 */
module Vocabulary {

  /** Largest `std::size_t` value on a 64-bit platform. */
  const SIZE_MAX: int := 0xFFFF_FFFF_FFFF_FFFF

  /** `std::string::npos`, the "not found" result of `find`. */
  const NPOS: int := SIZE_MAX

  const TXT_SUFFIX: string := ".txt"

  /** Unsigned `std::size_t` subtraction `a - b`, wrapping modulo 2^64. */
  function SizeSub(a: nat, b: nat): (r: nat)
    requires a <= SIZE_MAX && b <= SIZE_MAX
    ensures r <= SIZE_MAX
    ensures b <= a ==> r == a - b
    ensures a < b ==> r == SIZE_MAX + 1 - (b - a)
  {
    (a - b) % (SIZE_MAX + 1)
  }

  /** Whether `pattern` occurs in `s` starting at index `k`. */
  predicate OccursAt(s: string, pattern: string, k: nat)
  {
    k + |pattern| <= |s| && s[k..k + |pattern|] == pattern
  }

  /**
   * `s.find(pattern, pos)`: the first index at or after `pos` where `pattern`
   * occurs, or `NPOS` when there is none (in particular when `pos` lies
   * beyond the end of `s`).
   */
  function Find(s: string, pattern: string, pos: nat): (r: int)
    requires |s| < NPOS
    ensures r == NPOS || (pos <= r && OccursAt(s, pattern, r))
    ensures r != NPOS ==> forall k :: pos <= k < r ==> !OccursAt(s, pattern, k)
    ensures r == NPOS ==> forall k :: pos <= k ==> !OccursAt(s, pattern, k)
    decreases |s| - pos
  {
    if pos + |pattern| > |s| then NPOS
    else if s[pos..pos + |pattern|] == pattern then pos
    else Find(s, pattern, pos + 1)
  }

  /**
   * The dispatch of the server constructor: true selects the text loader,
   * false the binary loader. The text loader is chosen exactly when the path
   * ends in ".txt"; a path shorter than the suffix always goes to the binary
   * loader, because the wrapped start position lies past its end.
   */
  predicate UsesTextLoader(path: string)
    requires |path| < NPOS
    ensures UsesTextLoader(path) <==> |path| >= |TXT_SUFFIX| && path[|path| - |TXT_SUFFIX|..] == TXT_SUFFIX
    ensures |path| < |TXT_SUFFIX| ==> !UsesTextLoader(path)
  {
    Find(path, TXT_SUFFIX, SizeSub(|path|, |TXT_SUFFIX|)) != NPOS
  }
}
