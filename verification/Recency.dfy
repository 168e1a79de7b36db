/** Histories of uses, for both LRU lists of the repository. */
module Recency {
  import opened Wrappers

  /** When k was last used in a history, -1 if never. */
  ghost function LastUse<T(!new)>(h: seq<Option<T>>, k: T): int {
    if h == [] then -1 else if h[|h| - 1] == Some(k) then |h| - 1 else LastUse(h[..|h| - 1], k)
  }

  lemma {:induction false} LastUseBound<T(!new)>(h: seq<Option<T>>, k: T)
    ensures LastUse(h, k) < |h|
  {
    if h != [] { LastUseBound(h[..|h| - 1], k); }
  }
}
