/** The infinite-scroll hook of the front end (frontend/src/hooks/useInfiniteScroll.js): a page
    counter and a loading guard around an awaited `fetchMore(page)`. `loadMore` is split at its
    `await` into a start and a settle step, so that calls made while a load is in flight can be
    expressed; the intersection observer that triggers it is not modelled. */
module InfiniteScroll {
  import opened Wrappers

  /** How the awaited `fetchMore(page)` ended: resolved, or rejected with an error whose
      `message` may be missing. */
  datatype FetchOutcome = Fetched | Failed(message: Option<string>)

  const DefaultError := "Failed to load more items"

  /** `err.message || 'Failed to load more items'`. */
  function ErrorMessage(message: Option<string>): (r: string)
    ensures r != ""
    ensures message.Some? && message.value != "" ==> r == message.value
  {
    match message
    case Some(m) => if m != "" then m else DefaultError
    case None => DefaultError
  }

  class Scroller {
    var isLoading: bool
    var error: Option<string>
    var page: int
    /** `loadingRef.current`: the guard read synchronously by `loadMore`. */
    var loadingRef: bool

    /** The loading flag shown to the page and the guard are always set and cleared together. */
    predicate Valid()
      reads this
    {
      isLoading == loadingRef
    }

    constructor ()
      ensures Valid()
      ensures page == 1 && !isLoading && error == None && !loadingRef
    {
      isLoading := false;
      error := None;
      page := 1;
      loadingRef := false;
    }

    /** `reset()`. */
    method Reset()
      modifies this
      ensures Valid()
      ensures page == 1 && !isLoading && error == None && !loadingRef
    {
      page := 1;
      isLoading := false;
      error := None;
      loadingRef := false;
    }

    /** `loadMore()` up to its `await`: nothing happens while a load is in flight or when there
        is nothing more; otherwise the guard is raised, the error cleared and the current page
        requested. */
    method LoadMoreStart(hasMore: bool) returns (requested: Option<int>)
      requires Valid()
      modifies this
      ensures Valid()
      ensures requested.Some? <==> !old(loadingRef) && hasMore
      ensures requested.None? ==>
        page == old(page) && error == old(error) && loadingRef == old(loadingRef)
      ensures requested.Some? ==>
        requested.value == old(page) && page == old(page) && loadingRef && error == None
    {
      if loadingRef || !hasMore {
        return None;
      }
      loadingRef := true;
      isLoading := true;
      error := None;
      requested := Some(page);
    }

    /** `loadMore()` after its `await`: a fetched page advances the counter by one, a failure
        records its message and keeps the page; the guard is lowered in both cases. */
    method LoadMoreSettle(outcome: FetchOutcome)
      modifies this
      ensures Valid()
      ensures !loadingRef && !isLoading
      ensures outcome.Fetched? ==> page == old(page) + 1 && error == old(error)
      ensures outcome.Failed? ==> page == old(page) && error == Some(ErrorMessage(outcome.message))
    {
      match outcome {
        case Fetched =>
          page := page + 1;
        case Failed(message) =>
          error := Some(ErrorMessage(message));
      }
      loadingRef := false;
      isLoading := false;
    }
  }

  /** Two `loadMore()` calls before the first fetch settles request the first page once; the
      page counter then moves on by one. With nothing more to load nothing is requested. */
  method OverlappingLoads(hasMore: bool) returns (first: Option<int>, second: Option<int>, page: int)
    ensures hasMore ==> first == Some(1) && second == None && page == 2
    ensures !hasMore ==> first == None && second == None && page == 1
  {
    var scroller := new Scroller();
    first := scroller.LoadMoreStart(hasMore);
    second := scroller.LoadMoreStart(hasMore);
    if first.Some? {
      scroller.LoadMoreSettle(Fetched);
    }
    page := scroller.page;
  }

  /** A failed load keeps the page, so the next load asks for the same page again and clears the
      error. */
  method RetryAfterFailure(message: Option<string>) returns (failedError: Option<string>, retried: Option<int>, errorAfterRetry: Option<string>)
    ensures failedError == Some(ErrorMessage(message)) && failedError != Some("")
    ensures retried == Some(1) && errorAfterRetry == None
  {
    var scroller := new Scroller();
    var requested := scroller.LoadMoreStart(true);
    scroller.LoadMoreSettle(Failed(message));
    failedError := scroller.error;
    retried := scroller.LoadMoreStart(true);
    errorAfterRetry := scroller.error;
  }
}
