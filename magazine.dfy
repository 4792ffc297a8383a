/**
 * The magazine screen: a paginated post list that page 1 replaces and later
 * pages extend, with guarded load-more, pull-to-refresh, and a first load
 * that uses posts fetched ahead of time when there are any.
 */
module Magazine {
  import opened Wrappers

  /** A post; only what identifies it is kept. */
  datatype Post = Post(author: string, permlink: string)

  /** The pagination record the magazine endpoint returns. */
  datatype Pagination = Pagination(
    currentPage: int,
    hasNextPage: bool,
    hasPrevPage: bool,
    limit: int,
    nextPage: int,
    prevPage: Option<int>,
    total: int,
    totalPages: int)

  /** How one page request ended: a decoded answer, or an exception from fetch or from decoding. */
  datatype PageOutcome = Answered(success: bool, data: seq<Post>, pagination: Pagination) | Failed

  /** The list after a page's posts arrive: page 1 replaces it, any other page is appended. */
  function Merge(items: seq<Post>, page: int, data: seq<Post>): (r: seq<Post>)
    ensures page == 1 ==> r == data
    ensures page != 1 ==> |r| == |items| + |data| && r[..|items|] == items && r[|items|..] == data
  {
    if page == 1 then data else items + data
  }

  /** Page 1 forgets whatever was loaded before. */
  lemma MergeFirstPage(items: seq<Post>, other: seq<Post>, data: seq<Post>)
    ensures Merge(items, 1, data) == Merge(other, 1, data) == data
  {
  }

  /** The posts of several pages, one page after another. */
  function Flatten(pages: seq<seq<Post>>): (r: seq<Post>)
    ensures pages == [] ==> r == []
    ensures forall i, x :: 0 <= i < |pages| && x in pages[i] ==> x in r
    ensures forall x :: x in r ==> exists i :: 0 <= i < |pages| && x in pages[i]
  {
    if pages == [] then []
    else
      var init := pages[..|pages| - 1];
      assert forall i :: 0 <= i < |init| ==> init[i] == pages[i];
      Flatten(init) + pages[|pages| - 1]
  }

  /** The list after merging the answers for `pageNumbers`, in order, into `items`. */
  function LoadSequence(items: seq<Post>, pageNumbers: seq<int>, pages: seq<seq<Post>>): (r: seq<Post>)
    requires |pageNumbers| == |pages|
    ensures pages == [] ==> r == items
    ensures pages != [] && pageNumbers[|pages| - 1] == 1 ==> r == pages[|pages| - 1]
    ensures forall x :: x in r ==> x in items || exists i :: 0 <= i < |pages| && x in pages[i]
  {
    if pages == [] then items
    else
      var init := pages[..|pages| - 1];
      assert forall i :: 0 <= i < |init| ==> init[i] == pages[i];
      Merge(LoadSequence(items, pageNumbers[..|pages| - 1], init), pageNumbers[|pages| - 1], pages[|pages| - 1])
  }

  /**
   * Loading page 1 and then only later pages leaves exactly their posts, in
   * the order they arrived, whatever the list held before.
   */
  lemma {:induction false} PagesConcatenate(items: seq<Post>, pageNumbers: seq<int>, pages: seq<seq<Post>>)
    requires |pageNumbers| == |pages| > 0
    requires pageNumbers[0] == 1
    requires forall i :: 0 < i < |pageNumbers| ==> pageNumbers[i] != 1
    ensures LoadSequence(items, pageNumbers, pages) == Flatten(pages)
    decreases |pages|
  {
    var n := |pages|;
    if n == 1 {
      assert pages[..0] == [];
      assert LoadSequence(items, pageNumbers, pages) == Merge(items, 1, pages[0]);
      assert Flatten(pages) == Flatten([]) + pages[0];
    } else {
      var ns, ps := pageNumbers[..n - 1], pages[..n - 1];
      assert forall i :: 0 < i < |ns| ==> ns[i] == pageNumbers[i];
      PagesConcatenate(items, ns, ps);
      assert pageNumbers[n - 1] != 1;
    }
  }

  /** The pagination set when posts fetched ahead of time are shown: page 1 of unknown size, with a next page. */
  function PreloadedPagination(count: nat): (p: Pagination)
    ensures p.currentPage == 1 && p.nextPage == 2 && p.hasNextPage && !p.hasPrevPage
    ensures p.limit == count && p.prevPage == None && p.total == 0 && p.totalPages == 0
  {
    Pagination(1, true, false, count, 2, None, 0, 0)
  }

  /** The page load-more asks for, or none when there is no known next page or a load is running. */
  function LoadMoreTarget(pagination: Option<Pagination>, isLoadingMore: bool): (r: Option<int>)
    ensures r.Some? <==> pagination.Some? && pagination.value.hasNextPage && !isLoadingMore
    ensures r.Some? ==> r.value == pagination.value.nextPage
  {
    if pagination.None? || !pagination.value.hasNextPage || isLoadingMore then None
    else Some(pagination.value.nextPage)
  }

  /** The screen's state. */
  class MagazineScreen {
    var feedData: seq<Post>
    var isLoading: bool
    var isRefreshing: bool
    var isLoadingMore: bool
    var pagination: Option<Pagination>
    /** The page numbers requested so far, oldest first. */
    var requested: seq<int>

    constructor()
      ensures feedData == [] && pagination == None && requested == []
      ensures !isLoading && !isRefreshing && !isLoadingMore
    {
      feedData := [];
      isLoading := false;
      isRefreshing := false;
      isLoadingMore := false;
      pagination := None;
      requested := [];
    }

    /**
     * `fetchFeed` after its await: a successful answer merges its posts and
     * replaces the pagination; a failed or unsuccessful one changes nothing.
     */
    method ApplyPage(page: int, outcome: PageOutcome)
      modifies this
      ensures outcome.Answered? && outcome.success ==>
                feedData == Merge(old(feedData), page, outcome.data) && pagination == Some(outcome.pagination)
      ensures !(outcome.Answered? && outcome.success) ==> feedData == old(feedData) && pagination == old(pagination)
      ensures isLoading == old(isLoading) && isRefreshing == old(isRefreshing)
      ensures isLoadingMore == old(isLoadingMore) && requested == old(requested)
    {
      if outcome.Answered? && outcome.success {
        if page == 1 {
          feedData := outcome.data;
        } else {
          feedData := feedData + outcome.data;
        }
        pagination := Some(outcome.pagination);
      }
    }

    /** `handleLoadMore` up to its await: the guard, then the flag and the request for the next page. */
    method BeginLoadMore() returns (page: Option<int>)
      modifies this
      ensures page == LoadMoreTarget(old(pagination), old(isLoadingMore))
      ensures page.None? ==> isLoadingMore == old(isLoadingMore) && requested == old(requested)
      ensures page.Some? ==> isLoadingMore && requested == old(requested) + [page.value]
      ensures feedData == old(feedData) && pagination == old(pagination)
      ensures isLoading == old(isLoading) && isRefreshing == old(isRefreshing)
    {
      if pagination.None? || !pagination.value.hasNextPage || isLoadingMore {
        page := None;
        return;
      }
      isLoadingMore := true;
      page := Some(pagination.value.nextPage);
      requested := requested + [page.value];
    }

    /** `handleLoadMore` after its await: the page is applied and the flag lowered. */
    method FinishLoadMore(page: int, outcome: PageOutcome)
      modifies this
      ensures outcome.Answered? && outcome.success ==>
                feedData == Merge(old(feedData), page, outcome.data) && pagination == Some(outcome.pagination)
      ensures !(outcome.Answered? && outcome.success) ==> feedData == old(feedData) && pagination == old(pagination)
      ensures !isLoadingMore
      ensures isLoading == old(isLoading) && isRefreshing == old(isRefreshing) && requested == old(requested)
    {
      ApplyPage(page, outcome);
      isLoadingMore := false;
    }

    /** `handleRefresh` up to its await: the flag is raised and page 1 requested. */
    method BeginRefresh()
      modifies this
      ensures isRefreshing && requested == old(requested) + [1]
      ensures feedData == old(feedData) && pagination == old(pagination)
      ensures isLoading == old(isLoading) && isLoadingMore == old(isLoadingMore)
    {
      isRefreshing := true;
      requested := requested + [1];
    }

    /** `handleRefresh` after its await: page 1 replaces the list on success, and the flag is lowered. */
    method FinishRefresh(outcome: PageOutcome)
      modifies this
      ensures outcome.Answered? && outcome.success ==>
                feedData == outcome.data && pagination == Some(outcome.pagination)
      ensures !(outcome.Answered? && outcome.success) ==> feedData == old(feedData) && pagination == old(pagination)
      ensures !isRefreshing
      ensures isLoading == old(isLoading) && isLoadingMore == old(isLoadingMore) && requested == old(requested)
    {
      ApplyPage(1, outcome);
      isRefreshing := false;
    }

    /**
     * `loadMagazine` up to its await: posts fetched ahead of time, when there
     * are any, are shown with a synthetic first-page pagination and nothing is
     * requested; otherwise the loading flag is raised and page 1 requested.
     */
    method BeginLoadMagazine(preloaded: Option<seq<Post>>) returns (fetching: bool)
      modifies this
      ensures fetching <==> !(preloaded.Some? && |preloaded.value| > 0)
      ensures !fetching ==> feedData == preloaded.value && pagination == Some(PreloadedPagination(|preloaded.value|))
      ensures !fetching ==> isLoading == old(isLoading) && requested == old(requested)
      ensures fetching ==> feedData == old(feedData) && pagination == old(pagination)
      ensures fetching ==> isLoading && requested == old(requested) + [1]
      ensures isRefreshing == old(isRefreshing) && isLoadingMore == old(isLoadingMore)
    {
      if preloaded.Some? && |preloaded.value| > 0 {
        feedData := preloaded.value;
        pagination := Some(Pagination(1, true, false, |preloaded.value|, 2, None, 0, 0));
        fetching := false;
      } else {
        isLoading := true;
        requested := requested + [1];
        fetching := true;
      }
    }

    /** `loadMagazine` after its await: a successful page 1 replaces list and pagination; loading ends. */
    method FinishLoadMagazine(outcome: PageOutcome)
      modifies this
      ensures outcome.Answered? && outcome.success ==>
                feedData == outcome.data && pagination == Some(outcome.pagination)
      ensures !(outcome.Answered? && outcome.success) ==> feedData == old(feedData) && pagination == old(pagination)
      ensures !isLoading
      ensures isRefreshing == old(isRefreshing) && isLoadingMore == old(isLoadingMore) && requested == old(requested)
    {
      if outcome.Answered? && outcome.success {
        feedData := outcome.data;
        pagination := Some(outcome.pagination);
      }
      isLoading := false;
    }
  }
}
