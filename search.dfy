/**
 * A `SELECT ... WHERE cond LIMIT 1` over a table kept in storage order:
 * the row it returns is the first row that satisfies the condition.
 */
module Search {
  import opened Wrappers

  /** Index of the first element of `s` that satisfies `p`, or None when none does. */
  function FirstMatch<T>(s: seq<T>, p: T -> bool): (r: Option<nat>)
    ensures r.Some? ==> r.value < |s| && p(s[r.value])
    ensures r.Some? ==> forall j :: 0 <= j < r.value ==> !p(s[j])
    ensures r.None? <==> forall j :: 0 <= j < |s| ==> !p(s[j])
    decreases |s|
  {
    if s == [] then None
    else if p(s[0]) then Some(0)
    else
      match FirstMatch(s[1..], p)
      case None => None
      case Some(i) => Some(i + 1)
  }
}
