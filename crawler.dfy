/**
  `get_douban_movies`: the paginated crawl of a user's "watched" list.
  Page `k` is requested at offset `15 * k`; each request is retried on
  transport errors up to three attempts in all, and a non-200 status is an
  error at once. Every item's id comes from a three-step cascade; items
  without an id are skipped, and in an incremental crawl so are known ids.
  The crawl ends at a page without items (an error on the first page) or,
  in an incremental crawl, after a page that yielded nothing new.

  The site is a finite sequence of page fetches; every page past its end
  is an empty listing page.
*/
module Crawler {
  import opened Common
  import opened PyStr

  const PageSize: nat := 15
  const MaxRetries: nat := 3

  /** The fields of a listing item other than its id, as parsed from the item.
      The rating is the float the item parser produces, passed through as an
      opaque `real`; how it is parsed is not modelled. */
  datatype ItemFields = ItemFields(title: string, link: string, date: string, rating: real, posterUrl: string)

  /** A listing item: its own `data-subject`, the `data-subject` of the first
      nested node that has one, and the `href`s of its links in order. */
  datatype Item = Item(subject: Option<string>, nested: Option<string>, hrefs: seq<string>, fields: ItemFields)

  /** A crawled movie record. */
  datatype Listing = Listing(id: string, title: string, link: string, date: string, rating: real, posterUrl: string)

  datatype ListPage = ListPage(status: int, items: seq<Item>)

  /** How a page request goes: `failures` transport errors, then `page`. */
  datatype PageFetch = PageFetch(failures: nat, page: ListPage)

  datatype CrawlError =
    | TransportFailed(offset: nat)
    | BadStatus(offset: nat, status: int)
    | NoItemsOnFirstPage
    | NoMoviesParsed

  /** The outcome of a crawl and the offsets requested, in order. */
  datatype CrawlRun = CrawlRun(outcome: Result<seq<Listing>, CrawlError>, offsets: seq<nat>)

  // ---------------------------------------------------------------------
  // The id cascade.
  // ---------------------------------------------------------------------

  /** `/subject/(\d+)/` matches at `i` (the greedy `\d+` never backtracks
      here: the character after a shorter run is a digit, not `/`). */
  predicate SubjectAt(s: string, i: int) {
    OccursAt(s, "/subject/", i)
    && var d := DigitRun(s[i + 9..]);
       |d| > 0 && i + 9 + |d| < |s| && s[i + 9 + |d|] == '/'
  }

  /** The number of the leftmost `/subject/<digits>/`. */
  function SubjectId(s: string): Option<string>
    decreases |s|
  {
    if |s| == 0 then None
    else if SubjectAt(s, 0) then Some(DigitRun(s[9..]))
    else SubjectId(s[1..])
  }

  lemma SubjectShift(s: string, i: int)
    requires 1 <= i < |s|
    ensures SubjectAt(s, i) == SubjectAt(s[1..], i - 1)
  {
    if i + 9 <= |s| {
      assert s[1..][i - 1..i - 1 + 9] == s[i..i + 9];
      assert s[1..][i - 1 + 9..] == s[i + 9..];
    }
  }

  /** At a match, the id and its delimiters occur at the start. */
  lemma SubjectAtOccurs(s: string)
    requires SubjectAt(s, 0)
    ensures OccursAt(s, "/subject/" + DigitRun(s[9..]) + "/", 0)
  {
    var d := DigitRun(s[9..]);
    assert s[..9] == "/subject/";
    assert s[9..][..|d|] == d;
    assert s[0..9 + |d| + 1] == "/subject/" + d + "/";
  }

  /** A subject id is a non-empty digit string standing between `/subject/`
      and `/` in `s`. */
  lemma {:induction false} SubjectIdShape(s: string)
    ensures SubjectId(s).Some? ==> |SubjectId(s).value| > 0 && AllDigits(SubjectId(s).value)
    ensures SubjectId(s).Some? ==> Contains(s, "/subject/" + SubjectId(s).value + "/")
    decreases |s|
  {
    if |s| == 0 {
    } else if SubjectAt(s, 0) {
      SubjectAtOccurs(s);
    } else {
      SubjectIdShape(s[1..]);
      var r := SubjectId(s[1..]);
      if r.Some? {
        var pat := "/subject/" + r.value + "/";
        var j :| 0 <= j <= |s[1..]| - |pat| && OccursAt(s[1..], pat, j);
        OccursShift(s, pat, j);
      }
    }
  }

  /** There is no subject id exactly when `/subject/<digits>/` occurs nowhere. */
  lemma {:induction false} SubjectIdNone(s: string)
    ensures SubjectId(s).None? <==> forall i | 0 <= i < |s| :: !SubjectAt(s, i)
    decreases |s|
  {
    if |s| > 0 && !SubjectAt(s, 0) {
      SubjectIdNone(s[1..]);
      forall i | 1 <= i < |s| ensures SubjectAt(s, i) == SubjectAt(s[1..], i - 1) {
        SubjectShift(s, i);
      }
      if SubjectId(s[1..]).Some? {
        var i :| 0 <= i < |s[1..]| && SubjectAt(s[1..], i);
        SubjectShift(s, i + 1);
      }
    }
  }

  /** A link path `/subject/<digits>/...` gives exactly those digits. */
  lemma SubjectIdOfPath(d: string, rest: string)
    requires |d| > 0 && AllDigits(d)
    ensures SubjectId("/subject/" + d + "/" + rest) == Some(d)
  {
    var s := "/subject/" + d + "/" + rest;
    assert s[9..] == d + ("/" + rest);
    DigitRunOf(d, "/" + rest);
    assert s[..9] == "/subject/";
    assert s[9 + |d|] == '/';
    assert SubjectAt(s, 0);
  }

  /** The subject number in the first link that has one. */
  function FirstLinkId(hrefs: seq<string>): (r: Option<string>)
    ensures r.Some? ==> |r.value| > 0 && AllDigits(r.value)
    ensures r.Some? ==> exists h <- hrefs :: SubjectId(h) == r
    ensures r.None? <==> forall h <- hrefs :: SubjectId(h).None?
  {
    if |hrefs| == 0 then None
    else
      SubjectIdShape(hrefs[0]);
      match SubjectId(hrefs[0])
      case Some(d) => Some(d)
      case None =>
        assert forall h <- hrefs[1..] :: h in hrefs;
        assert forall h <- hrefs :: h == hrefs[0] || h in hrefs[1..];
        FirstLinkId(hrefs[1..])
  }

  /** A present, non-empty attribute value. */
  predicate Given(v: Option<string>) {
    v.Some? && v.value != ""
  }

  /** The item's `data-subject`, else a nested node's, else the first link's subject number. */
  function ItemId(item: Item): Option<string> {
    if Given(item.subject) then item.subject
    else if Given(item.nested) then item.nested
    else FirstLinkId(item.hrefs)
  }

  /** An id is never empty, and it is absent exactly when all three sources are. */
  lemma ItemIdSpec(item: Item)
    ensures ItemId(item).Some? ==> ItemId(item).value != ""
    ensures ItemId(item).None? <==>
      !Given(item.subject) && !Given(item.nested) && forall h <- item.hrefs :: SubjectId(h).None?
  {
  }

  // ---------------------------------------------------------------------
  // One page of items.
  // ---------------------------------------------------------------------

  /** An item yields a record: it has an id, and the crawl is full or the id is new. */
  predicate Wanted(item: Item, existing: set<string>, forceFull: bool) {
    ItemId(item).Some? && (forceFull || ItemId(item).value !in existing)
  }

  function ListingOf(id: string, f: ItemFields): Listing {
    Listing(id, f.title, f.link, f.date, f.rating, f.posterUrl)
  }

  /** The records a page yields, in item order. */
  function PageMovies(items: seq<Item>, existing: set<string>, forceFull: bool): seq<Listing> {
    if |items| == 0 then []
    else
      var last := items[|items| - 1];
      PageMovies(items[..|items| - 1], existing, forceFull)
      + (if Wanted(last, existing, forceFull) then [ListingOf(ItemId(last).value, last.fields)] else [])
  }

  /** Every record has an id, new unless the crawl is full; a page yields
      something exactly when one of its items is wanted. */
  lemma {:induction false} PageMoviesSpec(items: seq<Item>, existing: set<string>, forceFull: bool)
    ensures forall l <- PageMovies(items, existing, forceFull) :: l.id != "" && (forceFull || l.id !in existing)
    ensures |PageMovies(items, existing, forceFull)| <= |items|
    ensures |PageMovies(items, existing, forceFull)| > 0 <==>
      exists k | 0 <= k < |items| :: Wanted(items[k], existing, forceFull)
  {
    if |items| > 0 {
      var init := items[..|items| - 1];
      PageMoviesSpec(init, existing, forceFull);
      ItemIdSpec(items[|items| - 1]);
      if exists k | 0 <= k < |init| :: Wanted(init[k], existing, forceFull) {
        var k :| 0 <= k < |init| && Wanted(init[k], existing, forceFull);
        assert items[k] == init[k];
      }
      if exists k | 0 <= k < |items| :: Wanted(items[k], existing, forceFull) {
        var k :| 0 <= k < |items| && Wanted(items[k], existing, forceFull);
        if k < |init| {
          assert init[k] == items[k];
        }
      }
    }
  }

  /** The item loop: `movies.append(movie)`, `new_count += 1`, `page_found_new = True`. */
  method ProcessItems(items: seq<Item>, existing: set<string>, forceFull: bool,
                      movies0: seq<Listing>, newCount0: nat)
    returns (movies: seq<Listing>, newCount: nat, foundNew: bool)
    ensures movies == movies0 + PageMovies(items, existing, forceFull)
    ensures newCount == newCount0 + |PageMovies(items, existing, forceFull)|
    ensures foundNew <==> |PageMovies(items, existing, forceFull)| > 0
  {
    movies, newCount, foundNew := movies0, newCount0, false;
    for i := 0 to |items|
      invariant movies == movies0 + PageMovies(items[..i], existing, forceFull)
      invariant newCount == newCount0 + |PageMovies(items[..i], existing, forceFull)|
      invariant foundNew <==> |PageMovies(items[..i], existing, forceFull)| > 0
    {
      assert items[..i + 1][..i] == items[..i];
      var id := ItemId(items[i]);
      if id.None? {
        continue;
      }
      if !forceFull && id.value in existing {
        continue;
      }
      foundNew := true;
      movies := movies + [ListingOf(id.value, items[i].fields)];
      newCount := newCount + 1;
    }
    assert items[..|items|] == items;
  }

  // ---------------------------------------------------------------------
  // Fetching one page with retries.
  // ---------------------------------------------------------------------

  /** The result of requesting a page: a transport error on every attempt,
      a non-200 status, or the page. */
  function FetchOutcome(f: PageFetch, offset: nat): Result<ListPage, CrawlError> {
    if f.failures >= MaxRetries then Err(TransportFailed(offset))
    else if f.page.status != 200 then Err(BadStatus(offset, f.page.status))
    else Ok(f.page)
  }

  /** The `for attempt in range(max_retries)` loop; `attempts` counts the requests made. */
  method FetchPage(f: PageFetch, offset: nat) returns (r: Result<ListPage, CrawlError>, attempts: nat)
    ensures r == FetchOutcome(f, offset)
    ensures 1 <= attempts <= MaxRetries
    ensures f.failures < MaxRetries ==> attempts == f.failures + 1
  {
    r, attempts := Err(TransportFailed(offset)), 0;
    for attempt := 0 to MaxRetries
      invariant attempts == attempt <= f.failures
    {
      attempts := attempt + 1;
      if attempt < f.failures {
        if attempt < MaxRetries - 1 {
          continue;
        }
        r := Err(TransportFailed(offset));
        break;
      }
      if f.page.status != 200 {
        r := Err(BadStatus(offset, f.page.status));
        break;
      }
      r := Ok(f.page);
      break;
    }
  }

  // ---------------------------------------------------------------------
  // The crawl.
  // ---------------------------------------------------------------------

  /** The fetch of page `k`; past the end of the site, an empty listing page. */
  function PageAt(site: seq<PageFetch>, k: nat): PageFetch {
    if k < |site| then site[k] else PageFetch(0, ListPage(200, []))
  }

  /** `ms` and `offs` come before the run. */
  function Then(ms: seq<Listing>, offs: seq<nat>, run: CrawlRun): CrawlRun {
    var outcome := match run.outcome
      case Ok(rest) => Ok(ms + rest)
      case Err(e) => Err(e);
    CrawlRun(outcome, offs + run.offsets)
  }

  lemma ThenEmpty(run: CrawlRun)
    ensures Then([], [], run) == run
  {
    assert [] + run.offsets == run.offsets;
    if run.outcome.Ok? {
      assert [] + run.outcome.value == run.outcome.value;
    }
  }

  lemma ThenThen(a: seq<Listing>, o: seq<nat>, b: seq<Listing>, p: seq<nat>, run: CrawlRun)
    ensures Then(a, o, Then(b, p, run)) == Then(a + b, o + p, run)
  {
    assert (o + p) + run.offsets == o + (p + run.offsets);
    if run.outcome.Ok? {
      assert (a + b) + run.outcome.value == a + (b + run.outcome.value);
    }
  }

  /** What one page decides: the crawl stops here with `run`, or goes on
      to the next page after the records `yielded`. */
  datatype Step = Stop(run: CrawlRun) | Next(yielded: seq<Listing>)

  /** The body of the `while True` loop for page `k`. */
  function PageStep(site: seq<PageFetch>, existing: set<string>, forceFull: bool, debug: bool, k: nat): (step: Step)
    ensures step.Next? ==> k < |site|
  {
    var offset := PageSize * k;
    match FetchOutcome(PageAt(site, k), offset)
    case Err(e) => Stop(CrawlRun(Err(e), [offset]))
    case Ok(page) =>
      if |page.items| == 0 then Stop(CrawlRun(if k == 0 then Err(NoItemsOnFirstPage) else Ok([]), [offset]))
      else
        var yielded := PageMovies(page.items, existing, forceFull);
        if k == 0 && debug && |yielded| == 0 then Stop(CrawlRun(Err(NoMoviesParsed), [offset]))
        else if |yielded| == 0 && !forceFull then Stop(CrawlRun(Ok([]), [offset]))
        else Next(yielded)
  }

  /** The crawl from page `k` on. */
  function CrawlFrom(site: seq<PageFetch>, existing: set<string>, forceFull: bool, debug: bool, k: nat): CrawlRun
    decreases |site| - k
  {
    match PageStep(site, existing, forceFull, debug, k)
    case Stop(run) => run
    case Next(yielded) => Then(yielded, [PageSize * k], CrawlFrom(site, existing, forceFull, debug, k + 1))
  }

  /** `get_douban_movies(user_id, existing_ids, force_full, debug=debug)`. */
  function Crawl(site: seq<PageFetch>, existing: set<string>, forceFull: bool, debug: bool): CrawlRun {
    CrawlFrom(site, existing, forceFull, debug, 0)
  }

  /** A page that stops the crawl requests just that page; a successful stop yields nothing more. */
  lemma StopShape(site: seq<PageFetch>, existing: set<string>, forceFull: bool, debug: bool, k: nat)
    requires PageStep(site, existing, forceFull, debug, k).Stop?
    ensures PageStep(site, existing, forceFull, debug, k).run.offsets == [PageSize * k]
    ensures PageStep(site, existing, forceFull, debug, k).run.outcome.Ok? ==>
      PageStep(site, existing, forceFull, debug, k).run.outcome.value == []
  {
  }

  /** Offsets start at `15 * k` and grow by 15 per page. */
  lemma {:induction false} CrawlOffsets(site: seq<PageFetch>, existing: set<string>, forceFull: bool, debug: bool, k: nat)
    ensures var offs := CrawlFrom(site, existing, forceFull, debug, k).offsets;
      |offs| >= 1 && forall i | 0 <= i < |offs| :: offs[i] == PageSize * (k + i)
    decreases |site| - k
  {
    var step := PageStep(site, existing, forceFull, debug, k);
    if step.Stop? {
      StopShape(site, existing, forceFull, debug, k);
    } else {
      CrawlOffsets(site, existing, forceFull, debug, k + 1);
      var rest := CrawlFrom(site, existing, forceFull, debug, k + 1).offsets;
      assert forall i | 1 <= i < 1 + |rest| :: ([PageSize * k] + rest)[i] == rest[i - 1];
    }
  }

  /** An incremental crawl returns only records with new, non-empty ids. */
  lemma {:induction false} CrawlOnlyNew(site: seq<PageFetch>, existing: set<string>, forceFull: bool, debug: bool, k: nat)
    ensures var r := CrawlFrom(site, existing, forceFull, debug, k);
      r.outcome.Ok? ==> forall l <- r.outcome.value :: l.id != "" && (forceFull || l.id !in existing)
    decreases |site| - k
  {
    var step := PageStep(site, existing, forceFull, debug, k);
    if step.Stop? {
      StopShape(site, existing, forceFull, debug, k);
    } else {
      var page := FetchOutcome(PageAt(site, k), PageSize * k).value;
      PageMoviesSpec(page.items, existing, forceFull);
      CrawlOnlyNew(site, existing, forceFull, debug, k + 1);
    }
  }

  /** A page on which the crawl may stop: an empty page, or, in an
      incremental crawl, a page none of whose items is wanted. */
  predicate StopPage(site: seq<PageFetch>, existing: set<string>, forceFull: bool, k: nat) {
    var f := FetchOutcome(PageAt(site, k), PageSize * k);
    f.Ok? && (|f.value.items| == 0
              || (!forceFull && forall i | 0 <= i < |f.value.items| :: !Wanted(f.value.items[i], existing, forceFull)))
  }

  /** A page whose step stops the crawl successfully is a stop page. */
  lemma StoppedOnStopPage(site: seq<PageFetch>, existing: set<string>, forceFull: bool, debug: bool, k: nat)
    requires PageStep(site, existing, forceFull, debug, k).Stop?
    requires PageStep(site, existing, forceFull, debug, k).run.outcome.Ok?
    ensures StopPage(site, existing, forceFull, k)
    ensures k == 0 ==> |FetchOutcome(PageAt(site, 0), 0).value.items| > 0
  {
    var page := FetchOutcome(PageAt(site, k), PageSize * k).value;
    PageMoviesSpec(page.items, existing, forceFull);
  }

  /** A crawl that succeeds ended on a stop page (so with `force_full` only an
      empty page ends it), and never on the first page when that one is empty. */
  lemma {:induction false} CrawlEndsOnStopPage(site: seq<PageFetch>, existing: set<string>, forceFull: bool, debug: bool, k: nat)
    ensures var r := CrawlFrom(site, existing, forceFull, debug, k);
      r.outcome.Ok? ==> StopPage(site, existing, forceFull, k + |r.offsets| - 1)
    ensures var r := CrawlFrom(site, existing, forceFull, debug, k);
      r.outcome.Ok? && k == 0 ==> |FetchOutcome(PageAt(site, 0), 0).value.items| > 0
    decreases |site| - k
  {
    var step := PageStep(site, existing, forceFull, debug, k);
    if step.Stop? {
      StopShape(site, existing, forceFull, debug, k);
      if step.run.outcome.Ok? {
        StoppedOnStopPage(site, existing, forceFull, debug, k);
      }
    } else {
      CrawlEndsOnStopPage(site, existing, forceFull, debug, k + 1);
      CrawlOffsets(site, existing, forceFull, debug, k + 1);
    }
  }

  /** Conversely, a stop page ends the crawl there: an empty page breaks out
      of the loop (an error on the first page), and in an incremental crawl a
      page without a new item ends it (an error on the first page in debug
      mode). */
  lemma StopPageStops(site: seq<PageFetch>, existing: set<string>, forceFull: bool, debug: bool, k: nat)
    requires StopPage(site, existing, forceFull, k)
    ensures PageStep(site, existing, forceFull, debug, k).Stop?
    ensures PageStep(site, existing, forceFull, debug, k).run.offsets == [PageSize * k]
    ensures PageStep(site, existing, forceFull, debug, k).run.outcome
      == if k == 0 && |PageAt(site, 0).page.items| == 0 then Err(NoItemsOnFirstPage)
         else if k == 0 && debug then Err(NoMoviesParsed)
         else Ok([])
  {
    var page := FetchOutcome(PageAt(site, k), PageSize * k).value;
    PageMoviesSpec(page.items, existing, forceFull);
  }

  /** An incremental crawl whose first page lists only known movies makes
      one request and returns no records. */
  lemma NothingNewFirstPage(site: seq<PageFetch>, existing: set<string>)
    requires FetchOutcome(PageAt(site, 0), 0).Ok?
    requires |PageAt(site, 0).page.items| > 0
    requires forall i | 0 <= i < |PageAt(site, 0).page.items| :: !Wanted(PageAt(site, 0).page.items[i], existing, false)
    ensures Crawl(site, existing, false, false) == CrawlRun(Ok([]), [0])
  {
    StopPageStops(site, existing, false, false, 0);
  }

  /** A full crawl goes on past every non-empty page it fetches, known ids
      included, unless it is the debug check on the first page; what it
      yields is every item with an id. */
  lemma FullCrawlContinues(site: seq<PageFetch>, existing: set<string>, debug: bool, k: nat)
    requires FetchOutcome(PageAt(site, k), PageSize * k).Ok?
    requires |PageAt(site, k).page.items| > 0
    requires !(k == 0 && debug)
    ensures PageStep(site, existing, true, debug, k).Next?
    ensures |PageStep(site, existing, true, debug, k).yielded| > 0 <==>
      exists i | 0 <= i < |PageAt(site, k).page.items| :: ItemId(PageAt(site, k).page.items[i]).Some?
  {
    var page := FetchOutcome(PageAt(site, k), PageSize * k).value;
    PageMoviesSpec(page.items, existing, true);
  }

  /** One pass of the loop body: fetch page `k`, then walk its items. */
  method CrawlPage(site: seq<PageFetch>, existing: set<string>, forceFull: bool, debug: bool, k: nat)
    returns (step: Step)
    ensures step == PageStep(site, existing, forceFull, debug, k)
  {
    var start := PageSize * k;
    var fetched, attempts := FetchPage(PageAt(site, k), start);
    if fetched.Err? {
      return Stop(CrawlRun(Err(fetched.error), [start]));
    }
    var items := fetched.value.items;
    if |items| == 0 {
      if start == 0 {
        return Stop(CrawlRun(Err(NoItemsOnFirstPage), [start]));
      }
      return Stop(CrawlRun(Ok([]), [start]));
    }
    var yielded, newCount, foundNew := ProcessItems(items, existing, forceFull, [], 0);
    assert [] + PageMovies(items, existing, forceFull) == PageMovies(items, existing, forceFull);
    if start == 0 && debug && |yielded| == 0 {
      return Stop(CrawlRun(Err(NoMoviesParsed), [start]));
    }
    if !foundNew && !forceFull {
      return Stop(CrawlRun(Ok([]), [start]));
    }
    step := Next(yielded);
  }

  /** The `while True` loop over pages. */
  method GetDoubanMovies(site: seq<PageFetch>, existing: set<string>, forceFull: bool, debug: bool)
    returns (run: CrawlRun, newCount: nat)
    ensures run == Crawl(site, existing, forceFull, debug)
    ensures run.outcome.Ok? ==> newCount == |run.outcome.value|
  {
    var movies: seq<Listing> := [];
    var offsets: seq<nat> := [];
    var start: nat := 0;
    var k: nat := 0;
    newCount := 0;
    ThenEmpty(Crawl(site, existing, forceFull, debug));
    while true
      invariant start == PageSize * k
      invariant newCount == |movies|
      invariant Crawl(site, existing, forceFull, debug)
             == Then(movies, offsets, CrawlFrom(site, existing, forceFull, debug, k))
      decreases |site| - k
    {
      var step := CrawlPage(site, existing, forceFull, debug, k);
      if step.Stop? {
        StopShape(site, existing, forceFull, debug, k);
        if step.run.outcome.Err? {
          return CrawlRun(step.run.outcome, offsets + [start]), newCount;
        }
        assert movies + [] == movies;
        offsets := offsets + [start];
        break;
      }
      ThenThen(movies, offsets, step.yielded, [start], CrawlFrom(site, existing, forceFull, debug, k + 1));
      movies := movies + step.yielded;
      newCount := newCount + |step.yielded|;
      offsets := offsets + [start];
      start := start + PageSize;
      k := k + 1;
    }
    run := CrawlRun(Ok(movies), offsets);
  }
}
