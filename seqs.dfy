/** Sequence helpers shared by the modules of this model. */
module Seqs {

  /**
   * The position of the first element of `s` that satisfies `p`, or `|s|`
   * when there is none: where a Python loop over `s` that raises on such an
   * element stops.
   */
  function FirstWhere<T>(s: seq<T>, p: T -> bool): (k: nat)
    ensures k <= |s|
    ensures forall j :: 0 <= j < k ==> !p(s[j])
    ensures k < |s| ==> p(s[k])
  {
    if s == [] then 0
    else if p(s[0]) then 0
    else 1 + FirstWhere(s[1..], p)
  }
}
