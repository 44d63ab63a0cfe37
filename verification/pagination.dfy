/** Pagination in `main`: fetch-all walks pages 1, 2, 3, ... until the first
    empty page; single-page mode makes one request. A page oracle `fetch`
    stands for one `fetch_products` call (an absent response is already
    the empty list there). */
module Pagination {

  /** Pages 1 .. k - 1 concatenated in order. */
  function PagesBefore<T>(fetch: int -> seq<T>, k: int): seq<T>
    decreases k
  {
    if k <= 1 then [] else PagesBefore(fetch, k - 1) + fetch(k - 1)
  }

  /** `k` is the first empty page: pages 1 .. k - 1 all returned something. */
  ghost predicate FirstEmpty<T>(fetch: int -> seq<T>, k: int)
  {
    1 <= k && |fetch(k)| == 0 && forall p :: 1 <= p < k ==> |fetch(p)| > 0
  }

  /** The first empty page is unique, so the run is determined by the
      oracle. */
  lemma FirstEmptyUnique<T>(fetch: int -> seq<T>, k: int, k': int)
    requires FirstEmpty(fetch, k) && FirstEmpty(fetch, k')
    ensures k == k'
  {
  }

  /** The fetch-all loop: requests pages 1, 2, ... in order, appending each
      non-empty page, and stops at the first empty page. `pages` lists the
      requests made. The source loops forever when no page is empty; the
      precondition names some empty page `stop` (not necessarily the first),
      which bounds the walk. */
  method FetchAll<T>(fetch: int -> seq<T>, ghost stop: int) returns (items: seq<T>, pages: seq<int>)
    requires 1 <= stop && |fetch(stop)| == 0
    ensures FirstEmpty(fetch, |pages|)
    ensures forall i :: 0 <= i < |pages| ==> pages[i] == i + 1
    ensures items == PagesBefore(fetch, |pages|)
  {
    var page := 1;
    items := [];
    pages := [];
    while true
      invariant 1 <= page <= stop
      invariant |pages| == page - 1
      invariant forall i :: 0 <= i < |pages| ==> pages[i] == i + 1
      invariant forall p :: 1 <= p < page ==> |fetch(p)| > 0
      invariant items == PagesBefore(fetch, page)
      decreases stop - page
    {
      var result := fetch(page);
      pages := pages + [page];
      if |result| == 0 {
        break;
      }
      items := items + result;
      page := page + 1;
    }
  }

  /** The total number of items gathered before page k. */
  lemma {:induction false} PagesBeforeLength<T>(fetch: int -> seq<T>, k: int)
    ensures |PagesBefore(fetch, k)| == SizesBefore(fetch, k)
    decreases k
  {
    if k > 1 {
      PagesBeforeLength(fetch, k - 1);
    }
  }

  function SizesBefore<T>(fetch: int -> seq<T>, k: int): nat
    decreases k
  {
    if k <= 1 then 0 else SizesBefore(fetch, k - 1) + |fetch(k - 1)|
  }

  /** A two-then-one-then-empty oracle with a page size of 2: the walk makes
      three requests and gathers three items. */
  lemma ThreePageExample<T>(fetch: int -> seq<T>, k: int)
    requires |fetch(1)| == 2 && |fetch(2)| == 1 && |fetch(3)| == 0
    requires FirstEmpty(fetch, k)
    ensures k == 3
    ensures |PagesBefore(fetch, k)| == 3
  {
    assert FirstEmpty(fetch, 3);
    FirstEmptyUnique(fetch, k, 3);
    PagesBeforeLength(fetch, 3);
  }
}
