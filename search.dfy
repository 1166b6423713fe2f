/** First-match search over a sequence. Both the device scan (a `for` loop
    that returns on the first acceptable endpoint) and Rust's `match` on a
    number (the first arm whose pattern equals the value wins) select the
    first element of a sequence that satisfies a test. */
module Search {
  import opened Wrappers

  /** The index of the first element of `s` satisfying `p`, or None when
      there is none. */
  function FirstIndex<T>(s: seq<T>, p: T -> bool): (r: Option<nat>)
    ensures r.Some? ==> r.value < |s| && p(s[r.value])
    ensures r.Some? ==> forall j :: 0 <= j < r.value ==> !p(s[j])
    ensures r.None? ==> forall j :: 0 <= j < |s| ==> !p(s[j])
  {
    if |s| == 0 then None
    else if p(s[0]) then Some(0)
    else match FirstIndex(s[1..], p)
      case Some(i) => Some(i + 1)
      case None => None
  }

  /** The index of the first satisfying element is determined: any index that
      satisfies `p` with nothing satisfying it before is the one returned. */
  lemma FirstIndexUnique<T>(s: seq<T>, p: T -> bool, i: nat)
    requires i < |s| && p(s[i])
    requires forall j :: 0 <= j < i ==> !p(s[j])
    ensures FirstIndex(s, p) == Some(i)
  {
  }
}
