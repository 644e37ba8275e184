/**
 * `fetch_prs_in_period`, shared by both GitHub scripts: list pull requests
 * page by page, newest first by the chosen timestamp, keep those whose
 * timestamp lies in the window, and stop at an empty page or at a page whose
 * last item is older than the window start.
 */
module Pagination {
  import opened GitHub

  /** Page `p` (numbered from 1) of the listing; the API answers `[]` after the last page. */
  function PageAt(pages: seq<seq<PullRequest>>, p: int): seq<PullRequest> {
    if 1 <= p <= |pages| then pages[p - 1] else []
  }

  predicate InWindow(pr: PullRequest, key: SortKey, start: Timestamp, end: Timestamp) {
    start <= Stamp(pr, key) <= end
  }

  /** `response.select { start <= t && t <= end }`, keeping the page's order. */
  function InWindowOnly(page: seq<PullRequest>, key: SortKey, start: Timestamp, end: Timestamp): seq<PullRequest> {
    if page == [] then []
    else
      var rest := InWindowOnly(page[..|page| - 1], key, start, end);
      var last := page[|page| - 1];
      if InWindow(last, key, start, end) then rest + [last] else rest
  }

  /** The filter keeps exactly the page's in-window pull requests. */
  lemma {:induction false} InWindowOnlyMembers(page: seq<PullRequest>, key: SortKey, start: Timestamp, end: Timestamp)
    ensures forall pr :: pr in InWindowOnly(page, key, start, end) <==> pr in page && InWindow(pr, key, start, end)
  {
    if page != [] {
      InWindowOnlyMembers(page[..|page| - 1], key, start, end);
      assert page == page[..|page| - 1] + [page[|page| - 1]];
    }
  }

  /** The loop breaks after fetching this page: it is empty, or its last item predates the window. */
  predicate StopsAt(page: seq<PullRequest>, key: SortKey, start: Timestamp) {
    page == [] || Stamp(page[|page| - 1], key) < start
  }

  /** The number of the first page, from `p` on, after which the loop breaks. */
  function FirstStopFrom(pages: seq<seq<PullRequest>>, key: SortKey, start: Timestamp, p: nat): (r: nat)
    requires p >= 1
    decreases |pages| + 1 - p
  {
    if StopsAt(PageAt(pages, p), key, start) then p
    else FirstStopFrom(pages, key, start, p + 1)
  }

  /** The loop does break: at a page no later than the one just past the last page, and that page stops it. */
  lemma {:induction false} FirstStopStops(pages: seq<seq<PullRequest>>, key: SortKey, start: Timestamp, p: nat)
    requires p >= 1
    ensures var r := FirstStopFrom(pages, key, start, p);
      && p <= r <= (if p <= |pages| + 1 then |pages| + 1 else p)
      && StopsAt(PageAt(pages, r), key, start)
    decreases |pages| + 1 - p
  {
    if !StopsAt(PageAt(pages, p), key, start) {
      FirstStopStops(pages, key, start, p + 1);
    }
  }

  /** No page before the first stop stops the loop. */
  lemma {:induction false} FirstStopIsFirst(pages: seq<seq<PullRequest>>, key: SortKey, start: Timestamp, p: nat)
    requires p >= 1
    ensures forall q :: p <= q < FirstStopFrom(pages, key, start, p) ==> !StopsAt(PageAt(pages, q), key, start)
    decreases |pages| + 1 - p
  {
    if !StopsAt(PageAt(pages, p), key, start) {
      FirstStopIsFirst(pages, key, start, p + 1);
    }
  }

  /** Page `n` is the first page that stops the loop. */
  ghost predicate IsFirstStop(pages: seq<seq<PullRequest>>, key: SortKey, start: Timestamp, n: nat) {
    && 1 <= n && StopsAt(PageAt(pages, n), key, start)
    && forall q :: 1 <= q < n ==> !StopsAt(PageAt(pages, q), key, start)
  }

  /** The number of pages the loop requests. */
  function FirstStop(pages: seq<seq<PullRequest>>, key: SortKey, start: Timestamp): nat {
    FirstStopFrom(pages, key, start, 1)
  }

  /** The first stop is the one page that stops the loop with no stop before it. */
  lemma FirstStopCharacterized(pages: seq<seq<PullRequest>>, key: SortKey, start: Timestamp, n: nat)
    ensures IsFirstStop(pages, key, start, n) <==> n == FirstStop(pages, key, start)
  {
    var r := FirstStop(pages, key, start);
    FirstStopStops(pages, key, start, 1);
    FirstStopIsFirst(pages, key, start, 1);
    assert IsFirstStop(pages, key, start, r);
  }

  /** The in-order concatenation of the filtered pages 1..n. */
  function Collected(pages: seq<seq<PullRequest>>, key: SortKey, start: Timestamp, end: Timestamp, n: nat): seq<PullRequest> {
    if n == 0 then []
    else Collected(pages, key, start, end, n - 1) + InWindowOnly(PageAt(pages, n), key, start, end)
  }

  /**
   * The paginator. It requests pages 1, 2, ... in order; `pagesRequested` is
   * how many it requested and `prs` is what the loop accumulated.
   */
  method FetchPrsInPeriod(pages: seq<seq<PullRequest>>, key: SortKey, start: Timestamp, end: Timestamp)
    returns (prs: seq<PullRequest>, pagesRequested: nat)
    ensures IsFirstStop(pages, key, start, pagesRequested)
    ensures prs == Collected(pages, key, start, end, pagesRequested)
  {
    prs := [];
    var page: nat := 1;
    while true
      invariant 1 <= page <= |pages| + 1
      invariant forall q :: 1 <= q < page ==> !StopsAt(PageAt(pages, q), key, start)
      invariant prs == Collected(pages, key, start, end, page - 1)
      decreases |pages| + 1 - page
    {
      var response := PageAt(pages, page);
      if response == [] {
        break;
      }
      prs := prs + InWindowOnly(response, key, start, end);
      if Stamp(response[|response| - 1], key) < start {
        break;
      }
      page := page + 1;
    }
    pagesRequested := page;
  }

  /** Every pull request the paginator returns lies in the window. */
  lemma {:induction false} CollectedInWindow(pages: seq<seq<PullRequest>>, key: SortKey, start: Timestamp, end: Timestamp, n: nat)
    ensures forall pr :: pr in Collected(pages, key, start, end, n) ==> InWindow(pr, key, start, end)
  {
    if n > 0 {
      CollectedInWindow(pages, key, start, end, n - 1);
      InWindowOnlyMembers(PageAt(pages, n), key, start, end);
    }
  }

  /** Every in-window pull request on a page the loop fetched is returned. */
  lemma {:induction false} CollectedHasFetched(pages: seq<seq<PullRequest>>, key: SortKey, start: Timestamp, end: Timestamp, n: nat, p: nat, pr: PullRequest)
    requires 1 <= p <= n
    requires pr in PageAt(pages, p) && InWindow(pr, key, start, end)
    ensures pr in Collected(pages, key, start, end, n)
  {
    var here := InWindowOnly(PageAt(pages, n), key, start, end);
    InWindowOnlyMembers(PageAt(pages, n), key, start, end);
    assert Collected(pages, key, start, end, n) == Collected(pages, key, start, end, n - 1) + here;
    if p < n {
      CollectedHasFetched(pages, key, start, end, n - 1, p, pr);
    } else {
      assert pr in here;
    }
  }

  /** The API's promise: every item on a later page is no newer than any item on an earlier page. */
  ghost predicate DescendingAcrossPages(pages: seq<seq<PullRequest>>, key: SortKey) {
    forall i, j, a, b ::
      0 <= i < j < |pages| && 0 <= a < |pages[i]| && 0 <= b < |pages[j]| ==>
        Stamp(pages[j][b], key) <= Stamp(pages[i][a], key)
  }

  /** No empty page is followed by a non-empty one (no request in the middle failed). */
  ghost predicate NoEmptyPage(pages: seq<seq<PullRequest>>) {
    forall i :: 0 <= i < |pages| ==> pages[i] != []
  }

  /**
   * The early stop loses nothing when the listing really is in descending
   * order and no page request failed: every in-window pull request on any
   * page is returned.
   */
  lemma EarlyStopIsComplete(pages: seq<seq<PullRequest>>, key: SortKey, start: Timestamp, end: Timestamp, p: nat, pr: PullRequest)
    requires DescendingAcrossPages(pages, key) && NoEmptyPage(pages)
    requires 1 <= p <= |pages| && pr in pages[p - 1] && InWindow(pr, key, start, end)
    ensures pr in Collected(pages, key, start, end, FirstStop(pages, key, start))
  {
    var n := FirstStop(pages, key, start);
    FirstStopStops(pages, key, start, 1);
    // A later page would follow page n, which is non-empty and so stopped
    // the loop because its last item predates the window.
    if p <= n {
      CollectedHasFetched(pages, key, start, end, n, p, pr);
    }
  }
}
