/** First-match search over an ordered list of candidates, the pattern of the
    background-file loop in `create_background` and of `load_font`. */
module Search {
  import opened Results

  /** Position of the first candidate that is in `good`, or None if none is. */
  function FirstIndex<T(==)>(cands: seq<T>, good: set<T>): (r: Option<nat>)
    ensures r.Some? ==> r.value < |cands| && cands[r.value] in good
    ensures r.Some? ==> forall j :: 0 <= j < r.value ==> cands[j] !in good
    ensures r.None? <==> forall j :: 0 <= j < |cands| ==> cands[j] !in good
  {
    if |cands| == 0 then None
    else if cands[0] in good then Some(0)
    else
      match FirstIndex(cands[1..], good)
      case None => None
      case Some(i) => Some(i + 1)
  }

  /** The first candidate that is in `good`. */
  function FirstIn<T(==)>(cands: seq<T>, good: set<T>): (r: Option<T>)
    ensures r.Some? <==> exists j :: 0 <= j < |cands| && cands[j] in good
    ensures r.Some? ==> exists j :: 0 <= j < |cands| && cands[j] == r.value && r.value in good
                                    && forall k :: 0 <= k < j ==> cands[k] !in good
  {
    match FirstIndex(cands, good)
    case None => None
    case Some(i) => Some(cands[i])
  }
}
