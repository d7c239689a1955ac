/** Pagination as both components do it: the rank printed on each card,
    when the Previous and Next buttons are shown and enabled, and the page
    updates their click handlers apply. */
module Paging {
  import opened JsString
  import opened SearchApi

  /** The rank of the item at zero-based `index` on 1-based `page`: the
      items on a page carry the ranks `(page-1)*25 + 1` to `page*25`. */
  function Rank(page: int, index: int): (r: int)
    ensures page >= 1 && 0 <= index < PageSize ==> (page - 1) * PageSize < r <= page * PageSize
  {
    (page - 1) * PageSize + index + 1
  }

  /** The page a rank is printed on, and its position there. */
  function PageOfRank(rank: int): int {
    (rank - 1) / PageSize + 1
  }

  function IndexOfRank(rank: int): int {
    (rank - 1) % PageSize
  }

  /** Page and position are recovered from the rank ... */
  lemma RankRoundTrip(page: int, index: int)
    requires page >= 1 && 0 <= index < PageSize
    ensures PageOfRank(Rank(page, index)) == page && IndexOfRank(Rank(page, index)) == index
  {
  }

  /** ... and every positive rank appears on exactly one page, so the ranks
      of consecutive full pages are contiguous and disjoint. */
  lemma RankOfPosition(rank: int)
    requires rank >= 1
    ensures PageOfRank(rank) >= 1 && 0 <= IndexOfRank(rank) < PageSize
    ensures Rank(PageOfRank(rank), IndexOfRank(rank)) == rank
  {
  }

  lemma RankInjective(p1: int, i1: int, p2: int, i2: int)
    requires p1 >= 1 && 0 <= i1 < PageSize && p2 >= 1 && 0 <= i2 < PageSize
    ensures Rank(p1, i1) == Rank(p2, i2) <==> p1 == p2 && i1 == i2
  {
    RankRoundTrip(p1, i1);
    RankRoundTrip(p2, i2);
  }

  /** The last rank of a page is followed by the first rank of the next. */
  lemma RankContiguous(page: int)
    ensures Rank(page, PageSize - 1) + 1 == Rank(page + 1, 0)
  {
  }

  /** `repos.map((repo, i) => <RepoCard rank={(page - 1) * 25 + i + 1} />)`:
      each repository paired with its rank. */
  function RankedRepos(repos: seq<Repo>, page: int): (cards: seq<(int, Repo)>)
    ensures |cards| == |repos|
    ensures forall i :: 0 <= i < |repos| ==> cards[i].1 == repos[i]
    ensures forall i :: 0 < i < |repos| ==> cards[i].0 == cards[i - 1].0 + 1
    ensures |repos| > 0 ==> cards[0].0 == (page - 1) * PageSize + 1
  {
    seq(|repos|, i requires 0 <= i < |repos| => (Rank(page, i), repos[i]))
  }

  /** The pager is rendered only when `!isLoading && repos.length > 0`:
      a loaded, non-empty page; in particular every loaded full page. */
  predicate PagerShown(isLoading: bool, itemCount: nat)
    ensures PagerShown(isLoading, itemCount) <==> !isLoading && itemCount >= 1
    ensures !isLoading && NextEnabled(itemCount) ==> PagerShown(isLoading, itemCount)
  {
    !isLoading && itemCount > 0
  }

  /** Previous is `disabled={page <= 1}`: it is enabled exactly on the
      pages from which the updater really moves one page back, rather than
      being held at 1 by `Math.max`. */
  predicate PreviousEnabled(page: int)
    ensures PreviousEnabled(page) <==> page >= 2
    ensures PreviousEnabled(page) <==> PreviousPage(page) == page - 1
  {
    !(page <= 1)
  }

  /** Next is `disabled={repos.length < 25}`: a short page is the last one,
      whatever `total_count` says. Since a response holds at most 25
      items, Next is enabled exactly after a full page. */
  predicate NextEnabled(itemCount: nat)
    ensures NextEnabled(itemCount) <==> itemCount >= PageSize
    ensures itemCount <= PageSize ==> (NextEnabled(itemCount) <==> itemCount == PageSize)
  {
    !(itemCount < PageSize)
  }

  /** The Previous updater `p => Math.max(1, p - 1)`: one page back,
      never below page 1. */
  function PreviousPage(p: int): (r: int)
    ensures r >= 1
    ensures r == p - 1 || (r == 1 && p <= 1)
  {
    if p - 1 < 1 then 1 else p - 1
  }

  /** The Next updater `p => p + 1`. */
  function NextPage(p: int): (r: int)
    ensures r == p + 1
  {
    p + 1
  }

  /** Next then Previous comes back to the same page. */
  lemma PreviousAfterNext(p: int)
    requires p >= 1
    ensures PreviousPage(NextPage(p)) == p
  {
  }

  /** Previous, when enabled, then Next comes back to the same page. */
  lemma NextAfterPrevious(p: int)
    requires PreviousEnabled(p)
    ensures NextPage(PreviousPage(p)) == p
  {
  }

  /** A response without `items` shows no pager, so neither button can be clicked. */
  lemma MissingItemsHidesPager(data: Option<Payload>, isLoading: bool)
    requires data.None? || data.value.items.None?
    ensures !PagerShown(isLoading, |Repos(data)|)
  {
  }
}
