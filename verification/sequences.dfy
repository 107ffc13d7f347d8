/** Order-preserving subsequences. */
module Sequences {

  /**
   * `sub` is obtained from `s` by deleting elements, keeping the order of the
   * rest.  Matching the last elements greedily is complete: if the last
   * element of `sub` equals the last element of `s`, some matching uses it.
   */
  predicate IsSubsequence<T(==)>(sub: seq<T>, s: seq<T>)
    decreases |s|
  {
    if sub == [] then true
    else if s == [] then false
    else if sub[|sub| - 1] == s[|s| - 1] then IsSubsequence(sub[..|sub| - 1], s[..|s| - 1])
    else IsSubsequence(sub, s[..|s| - 1])
  }
}
