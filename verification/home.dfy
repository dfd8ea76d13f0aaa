/**
 * The home page controller: how it loads the reviews (the backend first, the
 * local file as a fallback), and how it starts and stops the company clock.
 *
 * Requests, their answers and the interval timer are the page's environment:
 * a request is recorded by its address, an answer is delivered by calling
 * the matching `On...Result` method, and the timer fires by calling `Tick`.
 */
module HomePage {
  import opened Wrappers
  import opened Reviews
  import opened CompanyClock

  /** Address of the backend that serves the reviews. */
  const PrimaryUrl: string := "/backend/get_reviews.php"

  /** Address of the local file used when the backend fails. */
  const FallbackUrl: string := "assets/json/reviews.json"

  /** The two addresses the page requests reviews from. */
  datatype Endpoint = Primary | Fallback {
    function Url(): string {
      match this
      case Primary => PrimaryUrl
      case Fallback => FallbackUrl
    }
  }

  /** The outcome of a request: the parsed body, or an error (including the three-second timeout). */
  datatype Fetch<T> = Ok(data: T) | Err

  /** The addresses of a sequence of requests, in order. */
  function Addresses(endpoints: seq<Endpoint>): seq<string> {
    if endpoints == [] then [] else [endpoints[0].Url()] + Addresses(endpoints[1..])
  }

  /** The two request sequences of a page load, as addresses. */
  lemma RequestAddresses()
    ensures Addresses([Primary]) == [PrimaryUrl]
    ensures Addresses([Primary, Fallback]) == [PrimaryUrl, FallbackUrl]
  {
    assert [Primary, Fallback][1..] == [Fallback];
  }

  /** Which answer the page is waiting for. */
  datatype Pending = NoRequest | AwaitingPrimary | AwaitingFallback | Settled

  /** A browser interval handle: a positive number, so always truthy. */
  type TimerHandle = n: int | n > 0 witness 1

  /** The three review fields of the page. */
  datatype ReviewsState = ReviewsState(reviews: seq<Review>, loading: bool, error: bool)

  /** The review fields of a freshly created page. */
  const InitialReviews: ReviewsState := ReviewsState([], true, false)

  /**
   * The review fields once every answer has arrived, for a page rendered in a
   * browser or not, given the backend's answer and the fallback file's.
   */
  function AfterLoad(isBrowser: bool, primary: Fetch<seq<Review>>, fallback: Fetch<Option<FallbackDoc>>): ReviewsState {
    if !isBrowser then ReviewsState([], false, false)
    else match primary
      case Ok(data) => ReviewsState(data, false, false)
      case Err =>
        match fallback
        case Err => ReviewsState([], false, true)
        case Ok(doc) =>
          match NormalizeDocument(doc)
          case Some(rs) => ReviewsState(rs, false, false)
          case None => InitialReviews
  }

  /** The error flag is raised only when the page runs in a browser and both requests fail. */
  lemma ErrorOnlyWhenBothFail(isBrowser: bool, primary: Fetch<seq<Review>>, fallback: Fetch<Option<FallbackDoc>>)
    ensures AfterLoad(isBrowser, primary, fallback).error <==> isBrowser && primary.Err? && fallback.Err?
  {
  }

  /**
   * Loading ends in every case except one: the fallback file arrives but its
   * mapping throws on a `null` document or entry.
   */
  lemma LoadingEnds(isBrowser: bool, primary: Fetch<seq<Review>>, fallback: Fetch<Option<FallbackDoc>>)
    ensures AfterLoad(isBrowser, primary, fallback).loading <==>
      isBrowser && primary.Err? && fallback.Ok? && NormalizeDocument(fallback.data).None?
  {
  }

  /** Loading and error are never both set. */
  lemma NotLoadingAndFailed(isBrowser: bool, primary: Fetch<seq<Review>>, fallback: Fetch<Option<FallbackDoc>>)
    ensures !(AfterLoad(isBrowser, primary, fallback).loading && AfterLoad(isBrowser, primary, fallback).error)
  {
  }

  /**
   * The reviews shown: the backend's list verbatim when it answers, else the
   * fallback file's reviews one per entry in order, else none.
   */
  lemma ShownReviews(isBrowser: bool, primary: Fetch<seq<Review>>, fallback: Fetch<Option<FallbackDoc>>)
    ensures !isBrowser ==> AfterLoad(isBrowser, primary, fallback).reviews == []
    ensures isBrowser && primary.Ok? ==> AfterLoad(isBrowser, primary, fallback).reviews == primary.data
    ensures isBrowser && primary.Err? && fallback.Ok? && NormalizeDocument(fallback.data).Some? ==>
      var shown := AfterLoad(isBrowser, primary, fallback).reviews;
      var doc := fallback.data.value;
      && (doc.reviews.None? ==> shown == [])
      && (doc.reviews.Some? ==>
            |shown| == |doc.reviews.value|
            && forall i :: 0 <= i < |shown| ==> shown[i] == NormalizeEntry(doc.reviews.value[i].value))
    ensures isBrowser && primary.Err? && (fallback.Err? || NormalizeDocument(fallback.data).None?) ==>
      AfterLoad(isBrowser, primary, fallback).reviews == []
  {
  }

  class Home {
    var reviews: seq<Review>
    var reviewsLoading: bool
    var reviewsError: bool
    var years: int
    var months: int
    var days: int
    var intervalId: Option<TimerHandle>

    /** Addresses requested so far, in order. */
    var requested: seq<Endpoint>
    /** The answer being waited for. */
    var pending: Pending
    /** Whether the interval timer is registered and not yet cleared. */
    var timerRunning: bool
    /** Whether `ngOnInit` has run. */
    var initialised: bool

    /** The review fields as one value. */
    function ReviewsNow(): ReviewsState
      reads this
    {
      ReviewsState(reviews, reviewsLoading, reviewsError)
    }

    /**
     * What holds between calls: the error flag only ever follows a failed
     * fallback, while a request is outstanding nothing has been shown yet, the
     * timer runs only with a handle, and nothing happens before `ngOnInit`.
     */
    predicate Valid()
      reads this
    {
      && (reviewsError ==> !reviewsLoading && reviews == [])
      && (pending == AwaitingPrimary || pending == AwaitingFallback ==> ReviewsNow() == InitialReviews)
      && (timerRunning ==> intervalId.Some?)
      && (!initialised ==>
            ReviewsNow() == InitialReviews && pending == NoRequest && requested == []
            && intervalId.None? && !timerRunning)
      && (pending == NoRequest ==> requested == [])
      && (pending == AwaitingPrimary ==> requested == [Primary])
      && (pending == AwaitingFallback ==> requested == [Primary, Fallback])
    }

    constructor()
      ensures Valid() && !initialised
      ensures ReviewsNow() == InitialReviews
      ensures years == 0 && months == 0 && days == 0
    {
      reviews, reviewsLoading, reviewsError := [], true, false;
      years, months, days := 0, 0, 0;
      intervalId := None;
      requested, pending, timerRunning, initialised := [], NoRequest, false, false;
    }

    /** `updateCompanyClock`: the clock fields become the reading at `now`; nothing else changes. */
    method UpdateCompanyClock(now: int)
      modifies this
      ensures IsElapsed(now, years, months, days)
      ensures now >= AnchorTime ==> 0 <= days < 31
      ensures ReviewsNow() == old(ReviewsNow()) && intervalId == old(intervalId)
      ensures requested == old(requested) && pending == old(pending)
      ensures timerRunning == old(timerRunning) && initialised == old(initialised)
    {
      var y, m, d := Elapsed(now);
      years, months, days := y, m, d;
    }

    /**
     * `ngOnInit`. Outside a browser only loading ends: no request, no clock,
     * no timer. In a browser the backend is requested, the clock is set to
     * `now` and an interval timer with handle `handle` is started.
     */
    method NgOnInit(isBrowser: bool, now: int, handle: TimerHandle)
      requires Valid() && !initialised
      modifies this
      ensures Valid() && initialised
      ensures !isBrowser ==>
        && ReviewsNow() == ReviewsState([], false, false)
        && requested == [] && pending == NoRequest
        && intervalId.None? && !timerRunning
        && years == old(years) && months == old(months) && days == old(days)
      ensures isBrowser ==>
        && ReviewsNow() == InitialReviews
        && requested == [Primary] && pending == AwaitingPrimary
        && IsElapsed(now, years, months, days)
        && intervalId == Some(handle) && timerRunning
    {
      initialised := true;
      if !isBrowser {
        reviewsLoading := false;
        return;
      }
      requested := requested + [Primary];
      pending := AwaitingPrimary;
      // Registering the timer only stores its handle and touches none of the
      // clock fields, so it is done before the first clock update here; the
      // final state is the same as in the opposite order.
      intervalId := Some(handle);
      timerRunning := true;
      UpdateCompanyClock(now);
    }

    /**
     * The backend's answer. Its list is shown verbatim and loading ends; on an
     * error (or timeout) the local file is requested instead.
     */
    method OnPrimaryResult(result: Fetch<seq<Review>>)
      requires Valid() && pending == AwaitingPrimary
      modifies this
      ensures Valid()
      ensures result.Ok? ==>
        ReviewsNow() == ReviewsState(result.data, false, false) && pending == Settled && requested == old(requested)
      ensures result.Err? ==>
        ReviewsNow() == old(ReviewsNow()) && pending == AwaitingFallback && requested == old(requested) + [Fallback]
      ensures years == old(years) && months == old(months) && days == old(days)
      ensures intervalId == old(intervalId) && timerRunning == old(timerRunning) && initialised == old(initialised)
    {
      match result
      case Ok(data) =>
        reviews := data;
        reviewsLoading := false;
        pending := Settled;
      case Err =>
        requested := requested + [Fallback];
        pending := AwaitingFallback;
    }

    /**
     * The fallback file's answer. Its reviews, filled in with defaults, are
     * shown and loading ends; if the mapping throws, nothing changes; on an
     * error loading ends and the error flag is raised.
     */
    method OnFallbackResult(result: Fetch<Option<FallbackDoc>>)
      requires Valid() && pending == AwaitingFallback
      modifies this
      ensures Valid() && pending == Settled && requested == old(requested)
      ensures result.Ok? && NormalizeDocument(result.data).Some? ==>
        ReviewsNow() == ReviewsState(NormalizeDocument(result.data).value, false, false)
      ensures result.Ok? && NormalizeDocument(result.data).None? ==> ReviewsNow() == old(ReviewsNow())
      ensures result.Err? ==> ReviewsNow() == ReviewsState(old(reviews), false, true)
      ensures years == old(years) && months == old(months) && days == old(days)
      ensures intervalId == old(intervalId) && timerRunning == old(timerRunning) && initialised == old(initialised)
    {
      pending := Settled;
      match result
      case Ok(doc) =>
        match NormalizeDocument(doc) {
          case Some(rs) =>
            reviews := rs;
            reviewsLoading := false;
          case None =>
        }
      case Err =>
        reviewsLoading := false;
        reviewsError := true;
    }

    /** The interval timer fires: the clock is brought up to `now`. */
    method Tick(now: int)
      requires Valid() && timerRunning
      modifies this
      ensures Valid()
      ensures IsElapsed(now, years, months, days)
      ensures ReviewsNow() == old(ReviewsNow()) && intervalId == old(intervalId)
      ensures requested == old(requested) && pending == old(pending)
      ensures timerRunning == old(timerRunning) && initialised == old(initialised)
    {
      UpdateCompanyClock(now);
    }

    /** `ngOnDestroy`: the timer is cleared if one was started; without a handle nothing happens. */
    method NgOnDestroy()
      requires Valid()
      modifies this
      ensures Valid() && !timerRunning
      ensures old(intervalId).None? ==> unchanged(this)
      ensures ReviewsNow() == old(ReviewsNow()) && intervalId == old(intervalId)
      ensures years == old(years) && months == old(months) && days == old(days)
      ensures requested == old(requested) && pending == old(pending) && initialised == old(initialised)
    {
      if intervalId.Some? {
        timerRunning := false;
      }
    }
  }

  /**
   * A whole page load: create the page, run `ngOnInit`, and deliver the
   * backend's answer and, when it is requested, the fallback file's. The
   * review fields end as `AfterLoad` says.
   */
  method LoadReviews(isBrowser: bool, now: int, handle: TimerHandle,
                     primary: Fetch<seq<Review>>, fallback: Fetch<Option<FallbackDoc>>)
    returns (page: Home)
    ensures page.Valid() && page.initialised
    ensures page.ReviewsNow() == AfterLoad(isBrowser, primary, fallback)
    ensures page.requested ==
      if !isBrowser then [] else if primary.Ok? then [Primary] else [Primary, Fallback]
    ensures Addresses(page.requested) ==
      if !isBrowser then []
      else if primary.Ok? then ["/backend/get_reviews.php"]
      else ["/backend/get_reviews.php", "assets/json/reviews.json"]
    ensures page.timerRunning == isBrowser
  {
    RequestAddresses();
    page := new Home();
    page.NgOnInit(isBrowser, now, handle);
    if isBrowser {
      page.OnPrimaryResult(primary);
      if primary.Err? {
        page.OnFallbackResult(fallback);
      }
    }
  }

  /** Destroying a page that was never rendered in a browser changes nothing. */
  method DestroyAfterServerRender(now: int, handle: TimerHandle) returns (page: Home)
    ensures page.ReviewsNow() == ReviewsState([], false, false)
    ensures page.intervalId.None? && !page.timerRunning && page.requested == []
  {
    page := new Home();
    page.NgOnInit(false, now, handle);
    page.NgOnDestroy();
  }
}
