/**
 * The three search workflows of `all_searches.py` (both revisions): read the user's choice,
 * run one catalog search, write one search-log entry carrying the number of results, then page
 * through the results or say that nothing was found.
 *
 * The console is the sequence of lines the user types; the catalog is `search`, the answer of
 * `search_movies` to a filter (a list of movies, or the error of a failed connection). What a
 * workflow does is the list of events it causes, in order.
 */
module Workflows {
  import opened Wrappers
  import opened Text
  import opened Records
  import opened SearchInput
  import QueryBuilder

  /**
   * Something a workflow does that can be observed from outside. `Paginated(movies)` is the call
   * `paginate_results(movies)` with its defaults (10 rows per page, the standard columns); the
   * session it runs on the remaining console lines is `Paginator.PaginateResults`.
   */
  datatype Event =
    | Searched(filter: QueryBuilder.SearchFilter)                  // search_movies(...)
    | Logged(searchType: string, params: Params, count: nat)    // log_search(type, params, len(movies))
    | Paginated(movies: seq<Movie>)                              // paginate_results(movies)
    | Said(notice: string)                                       // print(...)

  /**
   * How a workflow ends: normally, on EOFError from `input()`, with the exception a failed
   * connection raises, or with the exception `int()` or a comparison raises on an answer.
   */
  datatype Ending = Completed | EndOfInput | Aborted(error: string) | AnswerRaised(raised: PyError)

  /** The events of one run, how it ended, and the console lines left for whoever reads next. */
  datatype Run = Run(events: seq<Event>, ending: Ending, rest: seq<string>)

  type Catalog = QueryBuilder.SearchFilter -> Result<seq<Movie>>

  const EmptyKeyword: string := "⚠️ Keyword cannot be empty."
  const NothingFound: string := "🔍 Nothing found for your request."
  const NoGenreMovies: string := "🔍 No movies found for this genre and year range."
  const NoRatingMovies: string := "🔍 No movies found for the selected rating."
  const NoValidRating: string := "No valid rating selected. Exiting."
  const RatingsHeading: string := "\nAvailable MPAA Ratings:"

  /** Each printed refusal of a retry loop, in order. */
  function Notices(notices: seq<string>): (events: seq<Event>)
    ensures |events| == |notices|
    ensures forall i :: 0 <= i < |notices| ==> events[i] == Said(notices[i])
  {
    seq(|notices|, i requires 0 <= i < |notices| => Said(notices[i]))
  }

  /**
   * The common end of every workflow: search, log the search with the number of movies found,
   * then paginate them, or say `notFound` when there are none. A failed connection ends the
   * run right after the search.
   */
  function Report(before: seq<Event>, f: QueryBuilder.SearchFilter, searchType: string, params: Params,
                  notFound: string, answer: Result<seq<Movie>>, rest: seq<string>): Run
  {
    match answer
    case Err(e) => Run(before + [Searched(f)], Aborted(e), rest)
    case Ok(movies) =>
      var last := if movies == [] then Said(notFound) else Paginated(movies);
      Run(before + [Searched(f), Logged(searchType, params, |movies|), last], Completed, rest)
  }

  /**
   * The shape of a completed search: only printed notices, then exactly one search, then exactly
   * one log entry of the given type with the number of movies the search returned, then the
   * pagination of those movies if there are any, or the `notFound` notice if there are none.
   */
  predicate SearchedOnce(events: seq<Event>, search: Catalog, searchType: string, notFound: string) {
    && |events| >= 3
    && (forall i :: 0 <= i < |events| - 3 ==> events[i].Said?)
    && events[|events| - 3].Searched?
    && search(events[|events| - 3].filter).Ok?
    && var movies := search(events[|events| - 3].filter).value;
    && events[|events| - 2].Logged?
    && events[|events| - 2].searchType == searchType
    && events[|events| - 2].count == |movies|
    && events[|events| - 1] == (if movies == [] then Said(notFound) else Paginated(movies))
  }

  /** No search was run (and so nothing was logged or paginated). */
  predicate NoSearch(events: seq<Event>) {
    forall i :: 0 <= i < |events| ==> events[i].Said?
  }

  /** A failed search: notices, then the search whose connection failed, and nothing after it. */
  predicate SearchFailed(events: seq<Event>, search: Catalog, error: string) {
    && |events| >= 1
    && (forall i :: 0 <= i < |events| - 1 ==> events[i].Said?)
    && events[|events| - 1].Searched?
    && search(events[|events| - 1].filter) == Err(error)
  }

  /** The filter of the search a completed run made. */
  function FilterOf(events: seq<Event>): QueryBuilder.SearchFilter
    requires |events| >= 3 && events[|events| - 3].Searched?
  {
    events[|events| - 3].filter
  }

  /** The parameters of the log entry a completed run wrote. */
  function LoggedParams(events: seq<Event>): Params
    requires |events| >= 2 && events[|events| - 2].Logged?
  {
    events[|events| - 2].params
  }

  lemma ReportShape(before: seq<Event>, f: QueryBuilder.SearchFilter, searchType: string, params: Params,
                    notFound: string, search: Catalog, rest: seq<string>)
    requires NoSearch(before)
    ensures var run := Report(before, f, searchType, params, notFound, search(f), rest);
      && (run.ending.Completed? <==> search(f).Ok?)
      && (run.ending.Completed? ==>
            SearchedOnce(run.events, search, searchType, notFound) && FilterOf(run.events) == f
            && LoggedParams(run.events) == params)
      && (run.ending.Aborted? ==> SearchFailed(run.events, search, run.ending.error))
      && run.rest == rest
  {
    var run := Report(before, f, searchType, params, notFound, search(f), rest);
    if search(f).Ok? {
      assert run.events[..|before|] == before;
    }
  }

  // ---------------------------------------------------------------------------------------
  // Keyword

  function KeywordFilter(keyword: string): QueryBuilder.SearchFilter {
    QueryBuilder.SearchFilter(Some(keyword), None, None, None, None)
  }

  /**
   * `search_by_keyword_workflow` (both revisions): one stripped line; an empty keyword is refused
   * before anything else happens, any other keyword is searched and logged lower-cased.
   */
  function KeywordWorkflow(lines: seq<string>, search: Catalog): Run {
    if lines == [] then Run([], EndOfInput, [])
    else
      var keyword := Strip(lines[0]);
      if keyword == [] then Run([Said(EmptyKeyword)], Completed, lines[1..])
      else Report([], KeywordFilter(keyword), "keyword", [("keyword", Str(Lower(keyword)))], NothingFound,
                  search(KeywordFilter(keyword)), lines[1..])
  }

  /**
   * A keyword run that got past the blank check: exactly one search for the keyword, whose
   * clause matches titles against its lower-cased form, logged with the lower-cased keyword and
   * the number of movies found; or a failed search and nothing after it.
   */
  predicate KeywordSearched(run: Run, search: Catalog, keyword: string) {
    && (run.ending.Completed? ==>
          && SearchedOnce(run.events, search, "keyword", NothingFound)
          && FilterOf(run.events) == KeywordFilter(keyword)
          && QueryBuilder.Clauses(FilterOf(run.events)) == [QueryBuilder.TitleLike(QueryBuilder.TitlePattern(keyword))]
          && LoggedParams(run.events) == [("keyword", Str(Lower(keyword)))])
    && !run.ending.EndOfInput? && !run.ending.AnswerRaised?
    && (run.ending.Aborted? ==> SearchFailed(run.events, search, run.ending.error))
  }

  /**
   * A blank keyword says so and never reaches the catalog, the log or the pager; any other
   * keyword is searched stripped, as `KeywordSearched` describes.
   */
  lemma KeywordWorkflowOrder(lines: seq<string>, search: Catalog)
    requires lines != []
    ensures AllSpace(lines[0]) ==> KeywordWorkflow(lines, search) == Run([Said(EmptyKeyword)], Completed, lines[1..])
    ensures !AllSpace(lines[0]) ==> KeywordSearched(KeywordWorkflow(lines, search), search, Strip(lines[0]))
  {
    StripEmptyIffBlank(lines[0]);
    var keyword := Strip(lines[0]);
    if keyword != [] {
      KeywordReportShape(keyword, search, lines[1..]);
    }
  }

  lemma KeywordReportShape(keyword: string, search: Catalog, rest: seq<string>)
    requires keyword != []
    ensures var f := KeywordFilter(keyword);
      KeywordSearched(Report([], f, "keyword", [("keyword", Str(Lower(keyword)))], NothingFound, search(f), rest),
                      search, keyword)
  {
    var f := KeywordFilter(keyword);
    ReportShape([], f, "keyword", [("keyword", Str(Lower(keyword)))], NothingFound, search, rest);
    assert QueryBuilder.Clauses(f) == [QueryBuilder.TitleLike(QueryBuilder.TitlePattern(keyword))];
  }

  lemma PrefixOfPrefix<T>(a: seq<T>, b: seq<T>, c: seq<T>)
    requires |a| <= |b| <= |c| && b[..|a|] == a && c[..|b|] == b
    ensures c[..|a|] == a
  {
    assert c[..|a|] == c[..|b|][..|a|];
  }

  /** `n` printed refusals, all with the same notice. */
  function Refusals(notice: string, n: nat): (events: seq<Event>)
    ensures |events| == n && NoSearch(events)
    ensures forall k :: 0 <= k < n ==> events[k] == Said(notice)
  {
    seq(n, k => Said(notice))
  }

  // ---------------------------------------------------------------------------------------
  // Genre and year range

  function GenreFilter(id: int, yearFrom: int, yearTo: int): QueryBuilder.SearchFilter {
    QueryBuilder.SearchFilter(None, Some(id), Some(yearFrom), Some(yearTo), None)
  }

  function GenreLogParams(name: string, id: int, yearFrom: int, yearTo: int): Params {
    [("genre_name", Str(name)), ("genre_id", Int(id)), ("year_from", Int(yearFrom)), ("year_to", Int(yearTo))]
  }

  /** The search a genre run may make: a listed genre, and a year range within its bounds. */
  predicate GenreSearchValid(data: GenreData, f: QueryBuilder.SearchFilter) {
    && f.keyword.None? && f.rating.None?
    && f.genreId.Some? && f.yearFrom.Some? && f.yearTo.Some?
    && Get(data, f.genreId.value).Some?
    && var info := Get(data, f.genreId.value).value;
    && info.minYear.Some? && info.maxYear.Some?
    && info.minYear.value <= f.yearFrom.value <= f.yearTo.value <= info.maxYear.value
  }

  /**
   * A completed genre run: one search of a listed genre within its stored years, logged with
   * that genre's name, its id and the two years.
   */
  predicate GenreSearched(data: GenreData, events: seq<Event>, search: Catalog) {
    && SearchedOnce(events, search, "genre_year", NoGenreMovies)
    && GenreSearchValid(data, FilterOf(events))
    && var f := FilterOf(events);
    && LoggedParams(events) ==
         GenreLogParams(Get(data, f.genreId.value).value.name, f.genreId.value, f.yearFrom.value, f.yearTo.value)
  }

  /** The search, log entry and report of genre `choice` over `range`. */
  function GenreReport(before: seq<Event>, choice: GenreChoice, range: (int, int), search: Catalog, rest: seq<string>): Run {
    var f := GenreFilter(choice.id, range.0, range.1);
    Report(before, f, "genre_year", GenreLogParams(choice.name, choice.id, range.0, range.1), NoGenreMovies, search(f), rest)
  }

  /**
   * The year-range half of a genre run, once genre `choice` is chosen and `before` printed:
   * `get_year_range` reads pairs of lines until one is accepted, then the range is searched.
   */
  function YearsRun(choice: GenreChoice, before: seq<Event>, lines: seq<string>, search: Catalog): Run {
    var y := RetryOf(YearsCheck(choice.minYear, choice.maxYear), Pairs(lines));
    YearRangeOutcome(choice.minYear, choice.maxYear, lines, y);
    YearsEnd(choice, before + Notices(y.1), y.0, lines[2 * |y.1|..], search)
  }

  /** How the year loop's outcome `years` ends the run; `rest` starts at the pair that stopped it. */
  function YearsEnd(choice: GenreChoice, before: seq<Event>, years: Outcome<(int, int)>, rest: seq<string>, search: Catalog): Run
    requires !years.InputEnded? ==> |rest| >= 2
  {
    match years
    case InputEnded => Run(before, EndOfInput, [])
    case Raised(e) => Run(before, AnswerRaised(e), rest[2..])
    case Chosen(range) => GenreReport(before, choice, range, search, rest[2..])
  }

  /**
   * A genre run of the current revision over the `genre_data` the genre table was displayed
   * from: `select_genre` reads lines until one names a listed genre, then the year range.
   */
  function GenreRun(data: GenreData, lines: seq<string>, search: Catalog): Run {
    var g := RetryOf(GenreCheck(data), lines);
    GenreEnd(Notices(g.1), g.0, lines[|g.1|..], search)
  }

  /** How the genre loop's outcome `genre` ends the run; `rest` starts at the line that stopped it. */
  function GenreEnd(before: seq<Event>, genre: Outcome<GenreChoice>, rest: seq<string>, search: Catalog): Run
    requires !genre.InputEnded? ==> |rest| >= 1
  {
    match genre
    case InputEnded => Run(before, EndOfInput, [])
    case Raised(e) => Run(before, AnswerRaised(e), rest[1..])
    case Chosen(choice) => YearsRun(choice, before, rest[1..], search)
  }

  /** `search_by_genre_and_year_workflow` of the current revision. */
  method GenreWorkflow(data: GenreData, lines: seq<string>, search: Catalog) returns (run: Run)
    ensures run == GenreRun(data, lines, search)
  {
    var genre, notices := SelectGenre(data, lines);
    match genre
    case InputEnded =>
      run := Run(Notices(notices), EndOfInput, []);
    case Raised(e) =>
      run := Run(Notices(notices), AnswerRaised(e), lines[|notices| + 1..]);
    case Chosen(choice) =>
      run := YearsWorkflow(choice, Notices(notices), lines[|notices| + 1..], search);
    assert lines[|notices|..][1..] == lines[|notices| + 1..];
  }

  /** The rest of the genre workflow once a genre is chosen: `get_year_range`, then the search. */
  method YearsWorkflow(choice: GenreChoice, before: seq<Event>, lines: seq<string>, search: Catalog) returns (run: Run)
    ensures run == YearsRun(choice, before, lines, search)
  {
    var years, notices := GetYearRange(choice.minYear, choice.maxYear, lines);
    YearRangeOutcome(choice.minYear, choice.maxYear, lines, (years, notices));
    var events := before + Notices(notices);
    match years
    case InputEnded =>
      run := Run(events, EndOfInput, []);
    case Raised(e) =>
      run := Run(events, AnswerRaised(e), lines[2 * |notices| + 2..]);
    case Chosen(range) =>
      run := GenreReport(events, choice, range, search, lines[2 * |notices| + 2..]);
    assert lines[2 * |notices|..][2..] == lines[2 * |notices| + 2..];
  }

  /**
   * What a genre run can look like: a completed run searched a listed genre within its stored
   * years and logged it; a run that met the end of input or an exception from an answer
   * searched nothing; a failed connection ends it right after its only search.
   */
  lemma GenreRunShape(data: GenreData, lines: seq<string>, search: Catalog)
    ensures var run := GenreRun(data, lines, search);
      && (run.ending.Completed? ==> GenreSearched(data, run.events, search))
      && (run.ending.EndOfInput? || run.ending.AnswerRaised? ==> NoSearch(run.events))
      && (run.ending.Aborted? ==> SearchFailed(run.events, search, run.ending.error))
  {
    var g := RetryOf(GenreCheck(data), lines);
    if g.0.Chosen? {
      GenreChosenIsListed(data, lines, g);
      YearsRunShape(data, g.0.value, Notices(g.1), lines[|g.1|..][1..], search);
    }
  }

  lemma YearsRunShape(data: GenreData, choice: GenreChoice, before: seq<Event>, lines: seq<string>, search: Catalog)
    requires NoSearch(before)
    requires Get(data, choice.id) == Some(GenreInfo(choice.minYear, choice.maxYear, choice.name))
    ensures var run := YearsRun(choice, before, lines, search);
      && (run.ending.Completed? ==> GenreSearched(data, run.events, search))
      && (run.ending.EndOfInput? || run.ending.AnswerRaised? ==> NoSearch(run.events))
      && (run.ending.Aborted? ==> SearchFailed(run.events, search, run.ending.error))
  {
    var y := RetryOf(YearsCheck(choice.minYear, choice.maxYear), Pairs(lines));
    assert NoSearch(before + Notices(y.1));
    if y.0.Chosen? {
      YearRangeWithinBounds(choice.minYear, choice.maxYear, lines, y);
      GenreReportShape(data, choice, y.0.value, before + Notices(y.1), search, lines[2 * |y.1| + 2..]);
    }
  }

  /** The end of a genre run once a listed genre and a year range within its bounds are chosen. */
  lemma GenreReportShape(data: GenreData, choice: GenreChoice, range: (int, int), before: seq<Event>,
                         search: Catalog, rest: seq<string>)
    requires NoSearch(before)
    requires Get(data, choice.id) == Some(GenreInfo(choice.minYear, choice.maxYear, choice.name))
    requires choice.minYear.Some? && choice.maxYear.Some?
    requires choice.minYear.value <= range.0 <= range.1 <= choice.maxYear.value
    ensures
      var run := GenreReport(before, choice, range, search, rest);
      && (run.ending.Completed? ==>
            GenreSearched(data, run.events, search) && FilterOf(run.events) == GenreFilter(choice.id, range.0, range.1))
      && !run.ending.EndOfInput? && !run.ending.AnswerRaised?
      && (run.ending.Aborted? ==> SearchFailed(run.events, search, run.ending.error))
  {
    var f := GenreFilter(choice.id, range.0, range.1);
    ReportShape(before, f, "genre_year", GenreLogParams(choice.name, choice.id, range.0, range.1), NoGenreMovies, search, rest);
  }

  /** The answer to the `p`-th pair of year lines, `lines[2p]` and `lines[2p + 1]`, for genre `choice`. */
  function PairAnswer(choice: GenreChoice, lines: seq<string>, p: nat): Answer<(int, int)>
    requires 2 * p + 1 < |lines|
  {
    YearAnswer(choice.minYear, choice.maxYear, lines[2 * p], lines[2 * p + 1])
  }

  /**
   * Given `i` refused year pairs and then an accepted one: the run prints "Invalid year range"
   * `i` times, then searches, logs and reports the accepted range, and leaves the lines after
   * that pair unread.
   */
  lemma YearsRunOnAnswers(choice: GenreChoice, before: seq<Event>, lines: seq<string>, search: Catalog, i: nat)
    requires 2 * i + 1 < |lines|
    requires forall p :: 0 <= p < i ==> PairAnswer(choice, lines, p).Reject?
    requires PairAnswer(choice, lines, i).Accept?
    ensures YearsRun(choice, before, lines, search) ==
      GenreReport(before + Refusals(InvalidYearRange, i), choice, PairAnswer(choice, lines, i).value, search, lines[2 * i + 2..])
  {
    var check := YearsCheck(choice.minYear, choice.maxYear);
    forall p | 0 <= p <= i
      ensures check(Pairs(lines)[p]) == PairAnswer(choice, lines, p)
    {
      PairVerdict(choice.minYear, choice.maxYear, lines, p);
    }
    RetryOfFirstTaken(check, Pairs(lines), i);
    var y := RetryOf(check, Pairs(lines));
    forall p | 0 <= p < i
      ensures y.1[p] == InvalidYearRange
    {
      YearCheckIffValid(choice.minYear, choice.maxYear, Strip(lines[2 * p]), Strip(lines[2 * p + 1]));
    }
    assert Notices(y.1) == Refusals(InvalidYearRange, i);
  }

  /** The year loop meets the end of input exactly when every complete pair of lines is refused. */
  lemma YearsRunAllRefused(choice: GenreChoice, before: seq<Event>, lines: seq<string>, search: Catalog)
    ensures YearsRun(choice, before, lines, search).ending.EndOfInput? <==>
      forall p :: 0 <= p < |lines| / 2 ==> PairAnswer(choice, lines, p).Reject?
    ensures YearsRun(choice, before, lines, search).ending.EndOfInput? ==>
      YearsRun(choice, before, lines, search) == Run(before + Refusals(InvalidYearRange, |lines| / 2), EndOfInput, [])
  {
    var check := YearsCheck(choice.minYear, choice.maxYear);
    forall p | 0 <= p < |lines| / 2
      ensures check(Pairs(lines)[p]) == PairAnswer(choice, lines, p)
    {
      PairVerdict(choice.minYear, choice.maxYear, lines, p);
    }
    var y := RetryOf(check, Pairs(lines));
    if forall p :: 0 <= p < |lines| / 2 ==> PairAnswer(choice, lines, p).Reject? {
      RetryOfAllRefused(check, Pairs(lines));
      forall p | 0 <= p < |lines| / 2
        ensures y.1[p] == InvalidYearRange
      {
        YearCheckIffValid(choice.minYear, choice.maxYear, Strip(lines[2 * p]), Strip(lines[2 * p + 1]));
      }
      assert Notices(y.1) == Refusals(InvalidYearRange, |lines| / 2);
    }
  }

  /**
   * Given `j` refused genre lines and then one that selects a genre: the run prints the list of
   * valid ids `j` times and goes on to the year range of that genre with the lines after it.
   */
  lemma GenreRunOnAnswers(data: GenreData, lines: seq<string>, search: Catalog, j: nat)
    requires j < |lines|
    requires forall k :: 0 <= k < j ==> GenreAnswer(data, lines[k]).Reject?
    requires GenreAnswer(data, lines[j]).Accept?
    ensures GenreRun(data, lines, search) ==
      YearsRun(GenreAnswer(data, lines[j]).value, Refusals(InvalidGenreNotice(data), j), lines[j + 1..], search)
  {
    var check := GenreCheck(data);
    RetryOfFirstTaken(check, lines, j);
    var g := RetryOf(check, lines);
    forall k | 0 <= k < j
      ensures g.1[k] == InvalidGenreNotice(data)
    {
      GenreAnswerChoosesAKey(data, lines[k]);
    }
    assert Notices(g.1) == Refusals(InvalidGenreNotice(data), j);
  }

  /** When every line is refused, the genre loop prints the list of valid ids for each and meets the end of input. */
  lemma GenreRunAllRefused(data: GenreData, lines: seq<string>, search: Catalog)
    requires forall k :: 0 <= k < |lines| ==> GenreAnswer(data, lines[k]).Reject?
    ensures GenreRun(data, lines, search) == Run(Refusals(InvalidGenreNotice(data), |lines|), EndOfInput, [])
  {
    var check := GenreCheck(data);
    var g := RetryOf(check, lines);
    RetryOfAllRefused(check, lines);
    forall k | 0 <= k < |lines|
      ensures g.1[k] == InvalidGenreNotice(data)
    {
      GenreAnswerChoosesAKey(data, lines[k]);
    }
    assert Notices(g.1) == Refusals(InvalidGenreNotice(data), |lines|);
  }

  /**
   * A genre run meets the end of input only while choosing the genre (every line refused), or
   * while choosing the years of an accepted genre (every complete pair after it refused).
   */
  lemma GenreRunInputEnds(data: GenreData, lines: seq<string>, search: Catalog)
    requires GenreRun(data, lines, search).ending.EndOfInput?
    ensures
      || (forall k :: 0 <= k < |lines| ==> GenreAnswer(data, lines[k]).Reject?)
      || exists j :: 0 <= j < |lines| && GenreAnswer(data, lines[j]).Accept? &&
           var after := lines[j + 1..];
           forall p :: 0 <= p < |after| / 2 ==> PairAnswer(GenreAnswer(data, lines[j]).value, after, p).Reject?
  {
    var g := RetryOf(GenreCheck(data), lines);
    if g.0.Chosen? {
      var j := |g.1|;
      YearsRunAllRefused(g.0.value, Notices(g.1), lines[j + 1..], search);
    }
  }

  // ---------------------------------------------------------------------------------------
  // Rating

  function RatingFilter(code: string): QueryBuilder.SearchFilter {
    QueryBuilder.SearchFilter(None, None, None, None, Some(code))
  }

  /** The search, log entry and report of rating `code`. */
  function RatingReport(before: seq<Event>, code: string, search: Catalog, rest: seq<string>): Run {
    Report(before, RatingFilter(code), "rating", [("rating", Str(code))], NoRatingMovies, search(RatingFilter(code)), rest)
  }

  /**
   * A rating run of the current revision, given the `index_to_code` numbering the ratings table
   * was displayed with: read lines until one is a listed number, then search that code.
   */
  function RatingRun(indexToCode: map<int, string>, lines: seq<string>, search: Catalog): Run {
    var s := RetryOf(RatingCheck(indexToCode), lines);
    RatingEnd(Notices(s.1), s.0, lines[|s.1|..], search)
  }

  /**
   * How a rating loop's outcome `rating` ends the run (in both revisions); `rest` starts at the
   * line that stopped it.
   */
  function RatingEnd(before: seq<Event>, rating: Outcome<string>, rest: seq<string>, search: Catalog): Run
    requires !rating.InputEnded? ==> |rest| >= 1
  {
    match rating
    case InputEnded => Run(before, EndOfInput, [])
    case Raised(e) => Run(before, AnswerRaised(e), rest[1..])
    case Chosen(code) => RatingReport(before, code, search, rest[1..])
  }

  /**
   * `search_by_rating_workflow` of the current revision. `selected_rating` is set before the
   * loop is left, so the "No valid rating selected" branch is never taken.
   */
  method RatingWorkflow(indexToCode: map<int, string>, lines: seq<string>, search: Catalog) returns (run: Run)
    ensures run == RatingRun(indexToCode, lines, search)
  {
    var selected: Option<string> := None;
    var outcome, notices := SelectRating(indexToCode, lines);
    var before := Notices(notices);
    match outcome
    case InputEnded =>
      run := Run(before, EndOfInput, []);
    case Raised(e) =>
      run := Run(before, AnswerRaised(e), lines[|notices| + 1..]);
    case Chosen(code) =>
      selected := Some(code);
      if selected.None? {
        assert false;
      }
      run := RatingReport(before, selected.value, search, lines[|notices| + 1..]);
    assert lines[|notices|..][1..] == lines[|notices| + 1..];
  }

  /**
   * The end of a rating run in either revision: once a code is chosen, one search and log entry
   * for that code; otherwise no search at all.
   */
  lemma RatingEndShape(before: seq<Event>, rating: Outcome<string>, rest: seq<string>, search: Catalog)
    requires NoSearch(before)
    requires !rating.InputEnded? ==> |rest| >= 1
    ensures var run := RatingEnd(before, rating, rest, search);
      && |run.events| >= |before| && run.events[..|before|] == before
      && (run.ending.Completed? ==>
            && rating.Chosen?
            && SearchedOnce(run.events, search, "rating", NoRatingMovies)
            && FilterOf(run.events) == RatingFilter(rating.value)
            && LoggedParams(run.events) == [("rating", Str(rating.value))])
      && (run.ending.EndOfInput? || run.ending.AnswerRaised? ==> run.events == before)
      && (run.ending.Aborted? ==> SearchFailed(run.events, search, run.ending.error))
      && forall k :: |before| <= k < |run.events| ==> run.events[k] != Said(NoValidRating)
  {
    var run := RatingEnd(before, rating, rest, search);
    if rating.Chosen? {
      var code := rating.value;
      ReportShape(before, RatingFilter(code), "rating", [("rating", Str(code))], NoRatingMovies, search, rest[1..]);
      assert run.events[..|before|] == before;
      NoticesDiffer(0);
    }
  }

  /**
   * What a rating run can look like: a completed run searched and logged a code from the
   * table; otherwise nothing was searched, or the only search failed.
   */
  lemma RatingRunShape(indexToCode: map<int, string>, lines: seq<string>, search: Catalog)
    ensures var run := RatingRun(indexToCode, lines, search);
      && (run.ending.Completed? ==>
            && SearchedOnce(run.events, search, "rating", NoRatingMovies)
            && FilterOf(run.events).rating.Some?
            && FilterOf(run.events) == RatingFilter(FilterOf(run.events).rating.value)
            && FilterOf(run.events).rating.value in indexToCode.Values
            && LoggedParams(run.events) == [("rating", Str(FilterOf(run.events).rating.value))])
      && (run.ending.EndOfInput? || run.ending.AnswerRaised? ==> NoSearch(run.events))
      && (run.ending.Aborted? ==> SearchFailed(run.events, search, run.ending.error))
  {
    var s := RetryOf(RatingCheck(indexToCode), lines);
    RatingEndShape(Notices(s.1), s.0, lines[|s.1|..], search);
    if s.0.Chosen? {
      RatingChosenIsListed(indexToCode, lines, s);
    }
  }

  lemma NoticesDiffer(n: nat)
    ensures NoValidRating != OnlyNumbers && NoValidRating != SelectionRange(n) && NoValidRating != NoRatingMovies
  {
    assert |NoValidRating| < |OnlyNumbers| < |SelectionRange(n)|;
    assert |NoValidRating| < |NoRatingMovies|;
  }

  /** The "No valid rating selected" notice is never printed. */
  lemma RatingRunNeverUnselected(indexToCode: map<int, string>, lines: seq<string>, search: Catalog)
    ensures Said(NoValidRating) !in RatingRun(indexToCode, lines, search).events
  {
    var s := RetryOf(RatingCheck(indexToCode), lines);
    RatingNoticesListed(indexToCode, lines, s);
    NoticesDiffer(|indexToCode|);
    RatingEndShape(Notices(s.1), s.0, lines[|s.1|..], search);
  }

  /** The notices printed for the first `j` lines, each refused with its own notice. */
  function RatingNotices(indexToCode: map<int, string>, lines: seq<string>, j: nat): (events: seq<Event>)
    requires j <= |lines|
    ensures |events| == j && NoSearch(events)
  {
    seq(j, k requires 0 <= k < j => if RatingAnswer(indexToCode, lines[k]).Reject? then Said(RatingAnswer(indexToCode, lines[k]).notice) else Said(""))
  }

  /**
   * Given `j` refused lines and then a listed number: the run prints one notice per refused
   * line, then searches, logs and reports the code under that number, and leaves the lines
   * after it unread.
   */
  lemma RatingRunOnAnswers(indexToCode: map<int, string>, lines: seq<string>, search: Catalog, j: nat)
    requires j < |lines|
    requires forall k :: 0 <= k < j ==> RatingAnswer(indexToCode, lines[k]).Reject?
    requires RatingAnswer(indexToCode, lines[j]).Accept?
    ensures RatingRun(indexToCode, lines, search) ==
      RatingReport(RatingNotices(indexToCode, lines, j), RatingAnswer(indexToCode, lines[j]).value, search, lines[j + 1..])
  {
    var check := RatingCheck(indexToCode);
    RetryOfFirstTaken(check, lines, j);
    var s := RetryOf(check, lines);
    assert Notices(s.1) == RatingNotices(indexToCode, lines, j);
  }

  /** The rating loop meets the end of input exactly when every line is refused. */
  lemma RatingRunAllRefused(indexToCode: map<int, string>, lines: seq<string>, search: Catalog)
    ensures RatingRun(indexToCode, lines, search).ending.EndOfInput? <==>
      forall k :: 0 <= k < |lines| ==> RatingAnswer(indexToCode, lines[k]).Reject?
  {
    var check := RatingCheck(indexToCode);
    if forall k :: 0 <= k < |lines| ==> RatingAnswer(indexToCode, lines[k]).Reject? {
      RetryOfAllRefused(check, lines);
    }
  }

  // ---------------------------------------------------------------------------------------
  // The older revision

  /** The genres listed and every per-genre lookup answered, so the genre table is complete. */
  predicate GenresListed(allGenres: QueryBuilder.Driver<Genre>, years: YearsLookup, counts: CountLookup) {
    && QueryBuilder.LegacyFetchMovies(allGenres).Ok?
    && LookupsSucceed(QueryBuilder.LegacyFetchMovies(allGenres).value, years, counts)
  }

  /**
   * A genre run of the older revision: `select_genre` first lists the genres and looks up each
   * one's years and count; an exception there ends the run before anything is printed or read.
   * Otherwise the run goes on over the `genre_data` so built.
   */
  function LegacyGenreRun(allGenres: QueryBuilder.Driver<Genre>, years: YearsLookup, counts: CountLookup,
                          lines: seq<string>, search: Catalog): Run
  {
    match QueryBuilder.LegacyFetchMovies(allGenres)
    case Err(e) => Run([], Aborted(e), lines)
    case Ok(genres) =>
      match FirstFailure(genres, years, counts)
      case Some(e) => Run([], Aborted(e), lines)
      case None =>
        FirstFailureIffALookupFails(genres, years, counts);
        GenreRun(GenreDataOf(genres, years), lines, search)
  }

  /**
   * The older `search_by_genre_and_year_workflow`, returning the genre table it prints (none
   * when a lookup raises).
   */
  method LegacyGenreWorkflow(allGenres: QueryBuilder.Driver<Genre>, years: YearsLookup, counts: CountLookup,
                             lines: seq<string>, search: Catalog) returns (run: Run, table: seq<seq<string>>)
    ensures run == LegacyGenreRun(allGenres, years, counts, lines, search)
    ensures !GenresListed(allGenres, years, counts) ==> table == []
    ensures GenresListed(allGenres, years, counts) ==>
      var genres := QueryBuilder.LegacyFetchMovies(allGenres).value;
      && |table| == |genres|
      && forall k :: 0 <= k < |genres| ==> table[k] == RowOf(genres[k], years, counts)
  {
    table := [];
    var listed := QueryBuilder.LegacyFetchMovies(allGenres);
    if listed.Err? {
      return Run([], Aborted(listed.error), lines), [];
    }
    var data, rows, failure := BuildGenreTable(listed.value, years, counts);
    if failure.Some? {
      return Run([], Aborted(failure.value), lines), [];
    }
    table := rows;
    run := GenreWorkflow(data, lines, search);
  }

  /**
   * A failed connection while the genres are listed or looked up ends an older genre run
   * before anything is printed or read.
   */
  lemma LegacyGenreRunAborts(allGenres: QueryBuilder.Driver<Genre>, years: YearsLookup, counts: CountLookup,
                             lines: seq<string>, search: Catalog)
    requires !GenresListed(allGenres, years, counts)
    ensures var run := LegacyGenreRun(allGenres, years, counts, lines, search);
      && run.events == [] && run.ending.Aborted? && run.rest == lines
      && exists m :: run.ending.error == QueryBuilder.ConnectionErrorText(m)
  {
    var listed := QueryBuilder.LegacyFetchMovies(allGenres);
    if listed.Err? {
      assert listed.error == QueryBuilder.ConnectionErrorText(allGenres.message);
    } else {
      FirstFailureIffALookupFails(listed.value, years, counts);
      FirstFailureIsAConnectionError(listed.value, years, counts);
    }
  }

  /** A completed genre run over the table of `genres`: it searched one of them. */
  predicate ListedGenreSearched(genres: seq<Genre>, years: YearsLookup, events: seq<Event>, search: Catalog)
    requires YearsAnswered(genres, years)
  {
    && GenreSearched(GenreDataOf(genres, years), events, search)
    && var id := FilterOf(events).genreId.value;
    && exists k :: 0 <= k < |genres| && genres[k].id == id
  }

  /**
   * Once the genres are listed and looked up, an older genre run is a current one over the
   * `genre_data` built from them, so a completed run searched one of the listed genres.
   */
  lemma LegacyGenreRunListed(allGenres: QueryBuilder.Driver<Genre>, years: YearsLookup, counts: CountLookup,
                             lines: seq<string>, search: Catalog)
    requires GenresListed(allGenres, years, counts)
    ensures var genres := QueryBuilder.LegacyFetchMovies(allGenres).value;
      LegacyGenreRun(allGenres, years, counts, lines, search) == GenreRun(GenreDataOf(genres, years), lines, search)
    ensures var genres := QueryBuilder.LegacyFetchMovies(allGenres).value;
      var run := GenreRun(GenreDataOf(genres, years), lines, search);
      run.ending.Completed? ==> ListedGenreSearched(genres, years, run.events, search)
  {
    var genres := QueryBuilder.LegacyFetchMovies(allGenres).value;
    FirstFailureIffALookupFails(genres, years, counts);
    var data := GenreDataOf(genres, years);
    GenreRunShape(data, lines, search);
    var run := GenreRun(data, lines, search);
    if run.ending.Completed? {
      GenreDataListsEveryGenre(genres, years, FilterOf(run.events).genreId.value);
    }
  }

  /** The older rating menu: a heading, then one numbered line per rating. */
  function LegacyRatingMenu(): (menu: seq<Event>)
    ensures NoSearch(menu)
  {
    [Said(RatingsHeading)] + Notices(RatingMenu(LegacyRatings))
  }

  /**
   * A rating run of the older revision: print the numbered menu, read lines until one is a
   * number from 1 to 5, then search the code listed under it.
   */
  function LegacyRatingRun(lines: seq<string>, search: Catalog): Run {
    var s := RetryOf(LegacyRatingAnswer, lines);
    RatingEnd(LegacyRatingMenu() + Notices(s.1), s.0, lines[|s.1|..], search)
  }

  /** The older `search_by_rating_workflow`. */
  method LegacyRatingWorkflow(lines: seq<string>, search: Catalog) returns (run: Run)
    ensures run == LegacyRatingRun(lines, search)
  {
    var menu := LegacyRatingMenu();
    var outcome, notices := SelectLegacyRating(lines);
    var before := menu + Notices(notices);
    match outcome
    case InputEnded =>
      run := Run(before, EndOfInput, []);
    case Raised(e) =>
      run := Run(before, AnswerRaised(e), lines[|notices| + 1..]);
    case Chosen(code) =>
      run := RatingReport(before, code, search, lines[|notices| + 1..]);
    assert lines[|notices|..][1..] == lines[|notices| + 1..];
  }

  /**
   * What an older rating run can look like: it starts with the menu; a completed run searched
   * and logged one of the five listed codes; otherwise nothing was searched, or the only search
   * failed.
   */
  lemma LegacyRatingRunShape(lines: seq<string>, search: Catalog)
    ensures var run := LegacyRatingRun(lines, search);
      && |run.events| >= |LegacyRatingMenu()| && run.events[..|LegacyRatingMenu()|] == LegacyRatingMenu()
      && (run.ending.Completed? ==>
            && SearchedOnce(run.events, search, "rating", NoRatingMovies)
            && FilterOf(run.events).rating.Some?
            && FilterOf(run.events) == RatingFilter(FilterOf(run.events).rating.value)
            && FilterOf(run.events).rating.value in Keys(LegacyRatings)
            && LoggedParams(run.events) == [("rating", Str(FilterOf(run.events).rating.value))])
      && (run.ending.EndOfInput? || run.ending.AnswerRaised? ==> NoSearch(run.events))
      && (run.ending.Aborted? ==> SearchFailed(run.events, search, run.ending.error))
  {
    var s := RetryOf(LegacyRatingAnswer, lines);
    var menu := LegacyRatingMenu();
    var before := menu + Notices(s.1);
    assert before[..|menu|] == menu;
    RatingEndShape(before, s.0, lines[|s.1|..], search);
    PrefixOfPrefix(menu, before, LegacyRatingRun(lines, search).events);
    if s.0.Chosen? {
      LegacyRatingChosenIsListed(lines, s);
    }
  }

  /**
   * Given `j` refused lines and then a number from 1 to 5: after the menu the run prints the
   * range notice `j` times, then searches, logs and reports the code under that number.
   */
  lemma LegacyRatingRunOnAnswers(lines: seq<string>, search: Catalog, j: nat)
    requires j < |lines|
    requires forall k :: 0 <= k < j ==> LegacyRatingAnswer(lines[k]).Reject?
    requires LegacyRatingAnswer(lines[j]).Accept?
    ensures LegacyRatingRun(lines, search) ==
      RatingReport(LegacyRatingMenu() + Refusals(SelectionRange(5), j), LegacyRatingAnswer(lines[j]).value, search, lines[j + 1..])
  {
    RetryOfFirstTaken(LegacyRatingAnswer, lines, j);
    var s := RetryOf(LegacyRatingAnswer, lines);
    forall k | 0 <= k < j
      ensures s.1[k] == SelectionRange(5)
    {
      LegacyRatingCheckIffListed(Strip(lines[k]));
    }
    assert Notices(s.1) == Refusals(SelectionRange(5), j);
  }

  /** The older rating loop meets the end of input exactly when every line is refused. */
  lemma LegacyRatingRunAllRefused(lines: seq<string>, search: Catalog)
    ensures LegacyRatingRun(lines, search).ending.EndOfInput? <==>
      forall k :: 0 <= k < |lines| ==> LegacyRatingAnswer(lines[k]).Reject?
  {
    if forall k :: 0 <= k < |lines| ==> LegacyRatingAnswer(lines[k]).Reject? {
      RetryOfAllRefused(LegacyRatingAnswer, lines);
    }
  }
}
