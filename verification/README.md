# Company home page: clock, reviews and static-file caching

A Dafny model of the logic at the core of a small company's Angular site.
It covers the home page controller and the cache rule of the server that serves the site's static files.

- **Company clock** (`calendar.dfy`, `company_clock.dfy`). Every second, the home page shows how long the company has existed. The start is 1 March 2015 at midnight. The page counts whole years from the start, then whole months from the last anniversary, then the remaining whole days. It steps a JavaScript `Date` forward with `setFullYear` and `setMonth`. `Calendar` models the proleptic Gregorian calendar as JavaScript's `Date` uses it:
  - month carry and day-of-month roll-over, as in MakeDay;
  - time values in integer milliseconds.

  `CompanyClock` models the two loops and the floor divisions as methods. They are proved against `IsElapsed`, a predicate that says what the reading means: `now` lies in the month that starts `years` years and `months` months after the start, and `days` counts the whole days since that month began. Lemmas prove three things about it:
  - the reading is unique;
  - every instant from the start on has one;
  - `years` counts whole anniversaries.
- **Reviews** (`reviews.dfy`):
  - the review record the page renders;
  - the loosely typed records of the local fallback file, and how missing fields get defaults;
  - the five-star strip `getStars`.
- **Home page** (`home.dfy`). `Home` is a class with the controller's fields:
  - the three review fields;
  - the three clock fields;
  - the interval handle.

  It also has four fields for the environment:
  - the addresses requested so far;
  - the answer being waited for;
  - whether the timer runs;
  - whether `ngOnInit` has run.

  HTTP answers and timer ticks arrive as method calls, and the current time is a parameter. `AfterLoad` is the outcome of a whole page load as a function. `LoadReviews` proves that the methods reach it.
- **Static-file cache rule** (`static_cache.dfy`). This is the `Cache-Control` header chosen from the ending of a file's path:
  - a year, immutable, for scripts, styles, images and fonts;
  - a month for PDF documents;
  - nothing otherwise.

  The rule is proved to depend only on the path's final extension, compared case-sensitively.

## Model

| member | source | states |
|---|---|---|
| `Calendar.MakeDate` | src/app/pages/home/home.ts:123-134 | The date JavaScript builds from a year, a possibly out-of-range month and a day of month 1..31 is valid. Its day number is the first of the carried month (`year + month / 12`, `month % 12`) plus `day - 1`, so a day past the month's end rolls into the next month. |
| `Calendar.SetFullYear` | src/app/pages/home/home.ts:122-123 | `setFullYear` keeps the month and the day of month, and a day the month lacks rolls over. |
| `Calendar.SetMonth` | src/app/pages/home/home.ts:133-134 | `setMonth` keeps the day of month, carries the month into the year, and a day the month lacks rolls over. |
| `Calendar.YearLaterOnFirst` | src/app/pages/home/home.ts:122-123 | On the first of a month, one year later is the first of the same month a year on. |
| `Calendar.MonthLaterOnFirst` | src/app/pages/home/home.ts:133-134 | On the first of a month, one month later is the first of the next month, also from December. |
| `Calendar.JanuaryThirtyFirstPlusOneMonth` | src/app/pages/home/home.ts:133-134 | 31 January plus one month is 2 March in a leap year and 3 March otherwise. |
| `Calendar.LeapDayPlusOneYear` | src/app/pages/home/home.ts:122-123 | 29 February plus one year is 1 March of the next year. |
| `Calendar.FirstsOrdered` | src/app/pages/home/home.ts:121-124 | Comparing two firsts of months by time value (`<`, `<=` on dates) is comparing them by month number, in both directions. |
| `CompanyClock.NestedFloorDivision` | src/app/pages/home/home.ts:144-148 | Floor-dividing by 1000, 60, 60 and 24 in turn is floor-dividing by the milliseconds of a day. |
| `CompanyClock.WholeYears` | src/app/pages/home/home.ts:117-130 | The year loop ends on the `years`-th anniversary of its start, `years >= 0`. It makes no step when `now` is not after the start. Otherwise it ends with `now` between that anniversary and the next one. |
| `CompanyClock.WholeMonths` | src/app/pages/home/home.ts:132-141 | The month loop ends on the first of the month `months` months on, `months >= 0`. It makes no step when `now` is not after its start. Otherwise it ends with `now` in the month it ended on. |
| `CompanyClock.Elapsed` | src/app/pages/home/home.ts:106-153 | The computed years, months and days satisfy `IsElapsed` at `now`. From the start on, the days are fewer than the days of the month reached. |
| `CompanyClock.MonthOfTheYear` | src/app/pages/home/home.ts:132-141 | Started on the last anniversary before `now`, the month loop stops after at most 11 months, on the month `ClockMonth(years, months)`. |
| `CompanyClock.ElapsedUnique` | src/app/pages/home/home.ts:106-153 | Two readings that both satisfy `IsElapsed` at the same `now` are equal: the clock's reading is a function of the time. |
| `CompanyClock.ElapsedYearsAreWhole` | src/app/pages/home/home.ts:117-130 | From the start on, the `years`-th anniversary is not after `now` and the next anniversary is. |
| `CompanyClock.ElapsedWithin` | src/app/pages/home/home.ts:106-153 | Every instant from the start on has a reading: `r` ms into the month `months` months after the `years`-th anniversary reads `years`, `months`, `r / 86400000`. |
| `CompanyClock.ElapsedAtStart` | src/app/pages/home/home.ts:36 | At the start instant, 1 March 2015, the clock reads 0 years, 0 months, 0 days. |
| `CompanyClock.ElapsedJustBeforeStart` | src/app/pages/home/home.ts:144-148 | One millisecond before the start neither loop runs and the days are floored to -1. |
| `CompanyClock.ElapsedAtFirstAnniversary` | src/app/pages/home/home.ts:121-130 | On 1 March 2016 the clock reads exactly 1 year, 0 months, 0 days. |
| `CompanyClock.ElapsedOnSixthOfMay2016` | src/app/pages/home/home.ts:106-153 | At noon on 6 May 2016 the clock reads 1 year, 2 months, 5 days. |
| `Reviews.NormalizeEntry` | src/app/pages/home/home.ts:62-67 | Each field of a fallback record that is present is kept, including the nested `displayName`, `photoUri` and `text` values. A field that is missing, or whose enclosing object is missing, becomes `''`, or `0` for the rating. |
| `Reviews.NormalizeAll` | src/app/pages/home/home.ts:61-68 | The mapping yields reviews exactly when no entry is `null`. It then yields one review per entry, in order, each the entry normalized. |
| `Reviews.NormalizeDocument` | src/app/pages/home/home.ts:61 | A `null` document yields nothing, a missing `reviews` array yields no reviews, and otherwise the array is mapped. |
| `Reviews.NormalizeEntryRoundTrip` | src/app/pages/home/home.ts:61-68 | Normalizing a fully populated record gives back the review it was written from. |
| `Reviews.NormalizeAllRoundTrip` | src/app/pages/home/home.ts:61-68 | Normalizing fully populated entries gives back the reviews, in order. |
| `Reviews.MissingFieldsDefault` | src/app/pages/home/home.ts:62-67 | A record whose fields (or their inner fields) are all missing becomes the empty review. |
| `Reviews.ZeroRatingKept` | src/app/pages/home/home.ts:63 | A rating of 0 is kept as 0: `??` replaces only a missing value. |
| `Reviews.NullEntryYieldsNothing` | src/app/pages/home/home.ts:61-68 | A `null` entry anywhere in the array makes the whole mapping yield nothing. |
| `Reviews.GetStars` | src/app/pages/home/home.ts:96-98 | Five entries. Entry `i` is 1 exactly when `i < rating` and 0 exactly when `rating <= i`. |
| `Reviews.StarsFilledFirst` | src/app/pages/home/home.ts:96-98 | The strip is the filled stars followed by the empty ones. There are as many filled stars as the rating clamped to 0..5. |
| `Reviews.StarsCount` | src/app/pages/home/home.ts:96-98 | The sum of the strip is the rating clamped to 0..5. |
| `Reviews.StarsAtTheEnds` | src/app/pages/home/home.ts:96-98 | A rating of 0 or less gives five empty stars; 5 or more gives five filled ones. |
| `HomePage.ErrorOnlyWhenBothFail` | src/app/pages/home/home.ts:73-77 | After a page load, the error flag is set exactly when the page runs in a browser and both requests fail. |
| `HomePage.LoadingEnds` | src/app/pages/home/home.ts:44-77 | Loading stays on exactly when, in a browser, the backend fails and the fallback file arrives but its mapping throws. |
| `HomePage.NotLoadingAndFailed` | src/app/pages/home/home.ts:44-77 | After a page load, loading and error are never both set. |
| `HomePage.ShownReviews` | src/app/pages/home/home.ts:50-70 | The reviews shown are the backend's list verbatim when it answers. Otherwise they are the fallback entries normalized one by one, in order. Otherwise there are none, and none outside a browser. |
| `HomePage.Home.constructor` | src/app/pages/home/home.ts:26-33 | A new page has no reviews, is loading, has no error, and the clock reads 0, 0, 0. It has no timer, no request and has not been initialised. |
| `HomePage.Home.UpdateCompanyClock` | src/app/pages/home/home.ts:106-153 | The clock fields become the reading at `now` and nothing else changes. |
| `HomePage.Home.NgOnInit` | src/app/pages/home/home.ts:44-88 | Outside a browser only loading ends. In a browser the backend is requested, the clock shows the reading at `now`, and the timer runs with the given handle. `Valid` is kept. |
| `HomePage.Home.OnPrimaryResult` | src/app/pages/home/home.ts:50-58 | A backend answer is shown verbatim and loading ends. An error requests the fallback file and changes no review field. The clock and the timer are untouched. |
| `HomePage.Home.OnFallbackResult` | src/app/pages/home/home.ts:59-77 | A fallback document is shown normalized and loading ends. A throwing mapping changes no review field. An error ends loading and raises the error flag. |
| `HomePage.Home.Tick` | src/app/pages/home/home.ts:85-87 | A timer tick sets the clock fields to the reading at `now` and changes nothing else. |
| `HomePage.Home.NgOnDestroy` | src/app/pages/home/home.ts:90-94 | The timer is stopped when there is a handle. Without one nothing changes. |
| `HomePage.LoadReviews` | src/app/pages/home/home.ts:44-88 | Creating a page, running `ngOnInit` and delivering the answers leaves the review fields as `AfterLoad` says. The addresses requested are none outside a browser, `/backend/get_reviews.php` when the backend answers, and that followed by `assets/json/reviews.json` when it fails. A timer runs exactly in a browser. |
| `HomePage.RequestAddresses` | src/app/pages/home/home.ts:50-59 | The backend request goes to `/backend/get_reviews.php` and the fallback request to `assets/json/reviews.json`, in that order. |
| `HomePage.DestroyAfterServerRender` | src/app/pages/home/home.ts:90-94 | Destroying a page rendered outside a browser finds no timer and leaves loading off, with no request. |
| `StaticCache.EndsWithExtension` | src/server.ts:37 | A path ends with an extension such as `.js` exactly when that is its final extension. |
| `StaticCache.EndsWithAnyExtension` | src/server.ts:41 | A path matches a regular expression of alternative extensions anchored at the end exactly when its final extension is one of the alternatives. |
| `StaticCache.CacheControl` | src/server.ts:35-52 | The header is the one-year immutable value exactly for the script, style, image and font extensions. It is the one-month value exactly for `.pdf`, and there is no header exactly otherwise. |
| `StaticCache.ChainByExtension` | src/server.ts:37-49 | Each test of the chain holds exactly when the path's final extension is in that test's group. |
| `StaticCache.GroupsExclusive` | src/server.ts:37-49 | No extension is in two groups, so the order of the chain does not decide any header. |
| `StaticCache.MaxAgeIsAYear` | src/server.ts:38 | `31536000` seconds are 365 days. |
| `StaticCache.MaxAgeIsAMonth` | src/server.ts:50 | `2592000` seconds are 30 days. |
| `StaticCache.UpperCaseGetsNoHeader` | src/server.ts:37 | `app.JS` gets no header: matching is case-sensitive. |
| `StaticCache.InnerExtensionGetsNoHeader` | src/server.ts:49 | `x.pdf.bak` gets no header: only the end of the path is matched. |
| `StaticCache.ScriptGetsAYear` | src/server.ts:37-38 | `main.js` gets the one-year value. |
| `StaticCache.ImageGetsAYear` | src/server.ts:41-42 | `assets/logo.webp` gets the one-year value. |
| `StaticCache.FontGetsAYear` | src/server.ts:45-46 | `fonts/inter.woff2` gets the one-year value. |
| `StaticCache.DocumentGetsAMonth` | src/server.ts:49-50 | `docs/offert.pdf` gets the one-month value. |

## Left out

- Time zones and daylight saving time. The calendar is UTC, while the source's start date `new Date(2015, 2, 1)` is local midnight. A local day of 23 or 25 hours is not modelled.
- The current time is a parameter `now`, an integer number of milliseconds. JavaScript's floating-point time values, and `Date` values outside its ±8.64e15 ms range, are not modelled. Division by 1000, 60, 60 and 24 is exact floor division, which it is on integer milliseconds.
- The unused `totalSeconds`..`totalDays` values (home.ts lines 108-114) are left out because nothing reads them.
- `formatDate` is left out: it is locale-dependent formatting (`toLocaleDateString`).
- The initializers of `currentYear` and `currentMonth` are left out. They read the clock and nothing else uses them.
- HTTP requests are left out: the three-second timeout, the transport, change detection (`detectChanges`) and console logging. A request's answer is delivered as a `Fetch` value, with a timeout as `Err`.
- The backend answering with a body that is not an array of reviews, such as `null` or a malformed object, is left out. Its list is taken verbatim as a `seq<Review>`.
- Loosely typed fallback fields are modelled only as present or missing. A field of the wrong JSON type, such as a number where text is expected, is not modelled.
- Ratings are integers. A fractional rating (4.5 fills five stars in the source, since `4 < 4.5`) and `NaN` are not modelled.
- `isPlatformBrowser(PLATFORM_ID)` is a boolean parameter.
- The interval's one-second period is left out. `setInterval` is modelled as a handle passed in, and a tick as a call to `Tick`.
- In `HomePage.Home.NgOnInit` the timer's handle is stored before the first clock update, the reverse of the source's order. The two touch different fields and the timer only registers a callback, so the final state is the same.
- `HomePage.Home.NgOnInit` requires that it has not run before. Angular calls it once per component.
- Answers that arrive after `ngOnDestroy` are allowed: the answer methods do not require a running timer, just as the source never unsubscribes. No lemma is stated about that sequence.
- The Express application is left out: `express.static` options, `maxAge: '1y'`, the Angular server rendering and the listener. Only the `setHeaders` callback is modelled.
