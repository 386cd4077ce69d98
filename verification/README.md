# Movie search: a Dafny model

This project models the core of a console movie-search tool. The tool searches a MySQL film catalogue by keyword, by genre and year range, or by MPAA rating. It pages through the results in the console and logs every search to a MongoDB collection. It also prints statistics about the logged searches.

The repository holds two revisions of the same modules: the files at the root (the older revision) and the files under `final_movies/` (the current one). The model covers both and names the older revision's members `Legacy…` wherever the two differ.

The modules are:

- `Text` (text.dfy): the parts of Python's `str` the tool relies on. These are `strip`, `lower`, `isdigit`, `int()`, `str()` of an integer and `split()`, on ASCII text.
- `Records` (records.dfy): a result row (`Movie`) and the logged search parameters. The parameters are an insertion-ordered dictionary of string, integer or `None` values, with Python's `str`/`repr` of them.
- `Paginator` (paginator.dfy): `paginate_results`.
  - The page count and the page slices with their global row numbers.
  - The command parser and the one-step cursor transition.
  - The command loop as a method proved against a recursive `Session` specification.
- `SearchInput` (search_input.dfy): the input checks of `all_searches.py` and a generic retry loop.
  - The checks are on the genre id, the year range and the rating number.
  - The retry loop re-reads console lines until a check accepts one.
  - The older revision's genre table is built in a `for` loop into an ordered dictionary.
- `QueryBuilder` (query_builder.dfy): `search_movies` and the fetch fallbacks.
  - `search_movies` grows the SQL text and the parameter list clause by clause.
  - `fetch_movies` falls back to an empty result; the per-genre lookups fall back to their defaults.
- `Workflows` (workflows.dfy): the three search workflows of both revisions. A run is modelled as the list of events it causes: notices, the search, the log entry and the pagination.
- `LogStats` (log_stats.dfy): the labels given to logged searches, the aggregation pipelines (as data), and the numbered lines the statistics displays print.

The console is a sequence of lines. When the lines run out, the program ends as Python does on `EOFError`. The database and the log store are given answers: the rows a query returns, or the error it raises.

## Model

| member | source | states |
|---|---|---|
| Text.Strip | final_movies/all_searches.py:27-34 | `strip()` leaves no whitespace at either end and never lengthens the text |
| Text.StripIsInfix | final_movies/all_searches.py:34 | what `strip()` keeps is the infix between a leading and a trailing run of whitespace |
| Text.StripEmptyIffBlank | final_movies/all_searches.py:115-120 | a line strips to the empty string exactly when it is blank, which is when the keyword is refused |
| Text.StripOfStripped | final_movies/all_searches.py:27-34 | stripping a stripped string changes nothing |
| Text.LowerIdempotent | final_movies/formatter.py:50-54 | lower-casing twice equals lower-casing once, and a stripped command stays stripped |
| Text.NatToStringRoundTrip | final_movies/all_searches.py:81 | `str(n)` is a digit string with no leading zero whose value is `n` |
| Text.NatToStringOfDigits | final_movies/all_searches.py:69-70 | a canonical digit string is `str` of its own `int` value |
| Text.ParseInt | final_movies/formatter.py:68 | `int(token)` succeeds exactly on an optionally signed run of at most 4300 digits; longer runs raise ValueError as CPython does |
| Text.ParseIntOfIntToString | formatter.py:82 | `int(str(i)) == i` for every integer |
| Text.TakeWord | final_movies/formatter.py:68 | a word is the longest whitespace-free prefix: it holds no whitespace and is followed by whitespace or the end |
| Text.StrippedGotoHasSecondWord | final_movies/formatter.py:66-68 | on a stripped line starting with "g ", `split()[1]` always exists |
| Text.GotoWords | final_movies/formatter.py:68 | "g " followed by one word splits into exactly "g" and that word |
| Records.Get | final_movies/log_stats.py:22-31 | a dictionary read (`params.get`, `genre_data.get`, `available_ratings.get`) answers None exactly when no entry has the key, and otherwise a value stored under that key |
| Records.GetListed | final_movies/log_stats.py:29-30 | in a dictionary without repeated keys, each listed key reads back its own value |
| Records.ReprParamsAppend | final_movies/log_stats.py:32-33 | `str(params)` of a dictionary with one more key is the earlier text with ", key: value" added before the closing brace (no comma after an empty dictionary) |
| Paginator.PageStartMonotonic | final_movies/formatter.py:29 | later pages start later |
| Paginator.OnItsPage | final_movies/formatter.py:29-31 | result `x` lies within page `x // page_size` |
| Paginator.PageCount | final_movies/formatter.py:21-24 | `(n + P - 1) // P` is the least number of pages of P rows holding n rows, and is zero exactly when there are no results |
| Paginator.ResultOnExactlyOnePage | final_movies/formatter.py:29-31 | every result lies on exactly one page, and that page exists |
| Paginator.CommandIgnoresCaseAndPadding | final_movies/formatter.py:50-54 | commands are read after stripping and lower-casing, so padding and case never matter |
| Paginator.GoToReadsItsNumber | final_movies/formatter.py:66-68 | any console line that strips and lower-cases to "g w" asks for page `int(w)` |
| Paginator.GoToOverDigitLimit | final_movies/formatter.py:66-74 | a page number of more than 4300 digits raises ValueError inside the `try`, so the cursor stays and the "valid page number" notice is printed |
| Paginator.Step | final_movies/formatter.py:56-78 | one command keeps the cursor in `[0, total_pages)`, and `q` does not move it |
| Paginator.StepRules | formatter.py:67-94 | q alone quits; n and p move by one exactly when the page exists; "g k" lands on page k exactly when 1 <= k <= total; "g" with no readable number (a word `int()` refuses, or over 4300 digits) prints the "valid page number" notice; every refusal leaves the cursor in place and prints the notice naming its reason |
| Paginator.PageSlice | final_movies/formatter.py:29-31 | page c is `results[c*P : c*P+P]`, clamped like a Python slice |
| Paginator.PageTable | formatter.py:47-54 | the i-th row of page c shows result `c*P+i` and is numbered `c*P+i+1`; missing fields show "N/A" |
| Paginator.CellOfMissingAndNone | final_movies/formatter.py:39-41 | a missing field shows "N/A" and a field present with None shows "None", and the two differ |
| Paginator.RowNumberIsGlobalPosition | final_movies/formatter.py:36-43 | every result appears, numbered with its 1-based position, on page `k // P` |
| Paginator.PageRows | final_movies/formatter.py:36-43 | the row loop builds exactly the page's table |
| Paginator.TableColumns | final_movies/formatter.py:34 | the caller's headings are used unless none are given |
| Paginator.SessionInvariants | final_movies/formatter.py:26-78 | a session starts on its first page, keeps every cursor in range, and goes from each page shown to the next by one Step; it ends at the first q or when input runs out |
| Paginator.SessionStarts | final_movies/formatter.py:26 | the loop starts on page 0 with nothing shown |
| Paginator.SessionEnds | final_movies/formatter.py:28 | when input runs out, the page on screen is the last one shown |
| Paginator.SessionAdvances | final_movies/formatter.py:56-78 | each command either ends the session on the page shown or moves on to the next turn |
| Paginator.ScreensForAppend | final_movies/formatter.py:45-48 | showing one more page appends its screen |
| Paginator.ShowPage | final_movies/formatter.py:29-48 | the header and table printed for the cursor |
| Paginator.PaginateResults | final_movies/formatter.py:5-78 | nothing is shown exactly when there are no results; otherwise the pages, screens and notices are those of `Session` from page 0 |
| Paginator.NextOnFifteenResultsShowsPageTwoOfThree | tests/test_formatter.py:35-40 | fifteen results at five per page make three pages, and `n` shows "Page 2 of 3" |
| Paginator.GoToExamples | tests/test_formatter.py:42-75 | "g 2" moves to page 2; "g 999", "g x", an unknown word and `p` on page 1 are refused with their notices |
| SearchInput.RatingCodesInOrder | final_movies/all_searches.py:18-24 | both revisions list exactly G, PG, PG-13, R, NC-17, in that order |
| SearchInput.Retry | final_movies/all_searches.py:64-82 | the retry loop prints the notice of each refused line, and stops at the first line accepted, at an exception, or when input runs out |
| SearchInput.RetryOfFirstTaken | final_movies/all_searches.py:64-82 | the loop is decided by the first line not refused: it has printed the notice of each earlier line, in order, and returns that line's value or raises its error |
| SearchInput.RetryOfAllRefused | final_movies/all_searches.py:64-82 | when every line is refused, input runs out after one notice per line |
| SearchInput.GetPut | all_searches.py:46 | after `genre_data[id] = info`, the id reads `info` and every other id is unchanged |
| SearchInput.PutKeepsKeys | all_searches.py:46 | assignment keeps the existing keys in place, appends a new key at the end, and keeps the keys distinct |
| SearchInput.GenreAnswerChoosesAKey | final_movies/all_searches.py:66-82 | a line is accepted exactly when it is all digits and names a listed genre, which is returned with its stored years and name; an all-digit line over 4300 digits raises the ValueError of `int()`; any other line gets the notice listing the valid ids |
| SearchInput.ListedIdIsAccepted | final_movies/all_searches.py:69-77 | typing any listed id selects that genre |
| SearchInput.SelectGenre | final_movies/all_searches.py:64-82 | `select_genre` returns only a listed id with its stored bounds and name, after refusing every earlier line with the notice listing the valid ids; the only exception is the ValueError of a line over 4300 digits |
| SearchInput.GenreChosenIsListed | final_movies/all_searches.py:73-77 | the genre the loop returns carries exactly the years and name stored under its id in `genre_data` |
| SearchInput.YearCheckIffValid | final_movies/all_searches.py:99-105 | a year pair is accepted exactly when both are 4-digit numbers and `min <= from <= to <= max`; a number over 4300 digits raises ValueError, and unknown bounds raise TypeError only when the chained comparison reaches them |
| SearchInput.YearRangeExample | tests/test_all_searches.py:22-25 | 2000 and 2010 within 1990-2020 are returned as they are |
| SearchInput.YearAnswerMeaning | final_movies/all_searches.py:99-105 | an accepted pair lies within the known bounds, a refused pair gets the "Invalid year range" notice, and a raise is the ValueError of a number over 4300 digits or the TypeError of a missing bound |
| SearchInput.YearRangeOutcome | final_movies/all_searches.py:96-98 | each attempt reads two lines; input runs out exactly when every complete pair was refused, and otherwise the deciding pair is complete |
| SearchInput.YearRangeWithinBounds | final_movies/all_searches.py:99-104 | a returned range lies within the genre's known bounds: `min <= from <= to <= max` |
| SearchInput.YearRangeRaised | final_movies/all_searches.py:99-104 | an exception comes from the pair after the refused ones, and is the ValueError of an over-long number or the TypeError of a missing bound |
| SearchInput.GetYearRange | final_movies/all_searches.py:96-105 | the outcome and notices are those of the retry loop over the lines taken two at a time; YearRangeOutcome, YearRangeWithinBounds and YearRangeRaised below state what that loop returns |
| SearchInput.RatingAnswerPicksACode | final_movies/all_searches.py:192-207 | a choice is accepted exactly when it is all digits and a key of `index_to_code`, and yields a listed code; non-digits print "Only numbers are allowed" and other numbers print the allowed range; an all-digit choice over 4300 digits raises ValueError |
| SearchInput.SelectRating | final_movies/all_searches.py:192-207 | the selected rating is the code stored under the first acceptable number, each earlier choice printed its refusal, and the only exception is the ValueError of a choice over 4300 digits |
| SearchInput.RatingChosenIsListed | final_movies/all_searches.py:203-205 | the selected rating is a value of `index_to_code` |
| SearchInput.RatingNoticesListed | final_movies/all_searches.py:196-207 | every refusal prints either "Only numbers" or the range notice naming `len(index_to_code)` |
| SearchInput.LegacyRatingCheckIffListed | all_searches.py:171-181 | a choice is accepted exactly when it is all digits with value 1 to 5, and then yields the code listed at that position; an all-digit choice over 4300 digits raises ValueError |
| SearchInput.SelectLegacyRating | all_searches.py:171-181 | the older loop selects `keys[index - 1]` for the first valid number and refuses the earlier ones with one message; the only exception is the ValueError of a choice over 4300 digits |
| SearchInput.MenuNumberSelectsItsCode | all_searches.py:163-181 | the menu line numbered i+1 shows the i-th code and its description, and typing i+1 selects that code |
| SearchInput.LegacyRatingChosenIsListed | all_searches.py:171-177 | the selected rating is one of the listed codes |
| SearchInput.BuildGenreTable | all_searches.py:36-47 | the loop fills `genre_data` (with distinct keys) and one table row per listed genre |
| SearchInput.FirstFailureIffALookupFails | all_searches.py:41-47 | building the table stops with an error exactly when some listed genre's year or count lookup fails |
| SearchInput.FirstFailureIsAConnectionError | all_searches.py:44-45 | that error is always a failed connection, the only error the lookups let escape |
| SearchInput.RowsOfEachGenre | all_searches.py:41-47 | when every lookup succeeds there is one table row per listed genre, in order, showing its id, name, "min-max" years and count |
| SearchInput.GenreDataDistinct | all_searches.py:41-46 | filling `genre_data` by assignment, one genre at a time, never repeats a key |
| SearchInput.GenreDataListsEveryGenre | all_searches.py:41-46 | `genre_data` has an entry exactly for the ids of the listed genres |
| SearchInput.GenreDataKeepsLast | all_searches.py:41-46 | each id maps to the years and name of the last genre listed under it |
| QueryBuilder.SqlAppend | final_movies/mysql_connector.py:161-181 | the SQL text of more clauses is the text of the earlier ones followed by the new clause |
| QueryBuilder.ParamsAppend | final_movies/mysql_connector.py:161-181 | the parameters of more clauses are the earlier ones followed by the new clause's parameters |
| QueryBuilder.SearchQuery | final_movies/mysql_connector.py:155-186 | the query is the base SELECT, then the clauses of the given filters, then the ORDER BY; the parameters are the clauses' parameters in order |
| QueryBuilder.AddClause | final_movies/mysql_connector.py:163-181 | one step of the query construction: the query and parameters built from some clauses become those built from them plus one more |
| QueryBuilder.Extend | mysql_connector.py:141-158 | appending one clause to the query and the parameter list extends both specifications by that clause |
| QueryBuilder.ClausesIffFilters | final_movies/mysql_connector.py:164-181 | each clause is present exactly when its filter is truthy (both years for BETWEEN), and carries `%lower(keyword)%`, the genre id, both years in order or the rating |
| QueryBuilder.ClausesInFixedOrder | mysql_connector.py:141-158 | clauses come in the order keyword, genre, years, rating, each at most once |
| QueryBuilder.ParamCount | mysql_connector.py:141-158 | one parameter per clause, and two for the year range |
| QueryBuilder.ParamsConcat | final_movies/mysql_connector.py:161-181 | the parameters of two clause lists concatenate |
| QueryBuilder.NoPercentNoOccurrence | final_movies/mysql_connector.py:165 | text without `%` holds no placeholder mark |
| QueryBuilder.OccurrencesAppend | final_movies/mysql_connector.py:161-181 | placeholder counts add up over concatenation |
| QueryBuilder.OneMark | final_movies/mysql_connector.py:165 | `%s` holds one `%` |
| QueryBuilder.ClauseMarks | final_movies/mysql_connector.py:164-181 | each clause's text holds as many `%` marks as it has parameters |
| QueryBuilder.PlaceholdersMatchParams | final_movies/mysql_connector.py:161-186 | the clause text appended to the base query holds exactly one placeholder per parameter |
| QueryBuilder.NoFilterSearchesEverything | mysql_connector.py:132-138 | with no filter the query is the base query plus ORDER BY, with no parameters |
| QueryBuilder.FetchFallbacks | final_movies/mysql_connector.py:55-66 | only a failed connection escapes `fetch_movies`; query errors and a non-list result give `[]`; the older revision (mysql_connector.py:52-62) differs only on a non-empty non-list result |
| QueryBuilder.LookupFallbacks | final_movies/mysql_connector.py:105-128 | min/max years and the count are read from the first row, with fallbacks `(None, None)` and 0; the older revision (mysql_connector.py:94-113) reads the first row of any non-empty result |
| Workflows.ReportShape | final_movies/all_searches.py:123-133 | a workflow's end is one search, then one log entry with the number of movies found, then pagination or the not-found notice; a failed connection stops right after the search |
| Workflows.KeywordWorkflowOrder | final_movies/all_searches.py:115-133 | a blank keyword says so and never searches, logs or paginates; any other keyword is searched once stripped, with a LIKE on its lower-cased form, and logged lower-cased |
| Workflows.GenreWorkflow | final_movies/all_searches.py:136-169 | the workflow runs the genre loop, then the year loop on the rest of the input, then the search; the run is `GenreRun`, whose shape the lemmas below prove |
| Workflows.YearsWorkflow | final_movies/all_searches.py:85-105 | the year loop followed by the search, log and pagination; the run is `YearsRun` |
| Workflows.GenreRunShape | final_movies/all_searches.py:136-169 | a completed run searched once, with a listed genre id and years within that genre's stored bounds, and logged its name, id and years; a run that ran out of input or raised never searched; an abort is the failed search |
| Workflows.YearsRunShape | final_movies/all_searches.py:147-169 | the same from an accepted genre on: only a range within its stored bounds is searched and logged |
| Workflows.GenreReportShape | final_movies/all_searches.py:150-169 | after valid choices the run ends with one search for that genre and range, its log entry, then pagination or "No movies found", or stops at the failed search |
| Workflows.YearsRunOnAnswers | final_movies/all_searches.py:96-105 | when pairs 0 to i-1 are refused and pair i accepted, the run prints i "Invalid year range" notices and then searches pair i, leaving the input after line 2i+2 |
| Workflows.YearsRunAllRefused | final_movies/all_searches.py:96-105 | input runs out exactly when every complete pair is refused, after one notice per pair |
| Workflows.GenreRunOnAnswers | final_movies/all_searches.py:64-82 | after j refused lines and an accepted line j, the run has printed j notices listing the valid ids and asks for years from line j+1 |
| Workflows.GenreRunAllRefused | final_movies/all_searches.py:64-82 | when every line is refused, each prints the notice listing the valid ids and input runs out |
| Workflows.GenreRunInputEnds | final_movies/all_searches.py:144-147 | running out of input means every genre line was refused, or a genre was accepted and every year pair after it was refused |
| Workflows.RatingWorkflow | final_movies/all_searches.py:172-223 | the workflow runs the rating loop, the None check and the search; the run is `RatingRun` |
| Workflows.RatingEndShape | final_movies/all_searches.py:209-223 | after the loop a chosen code is searched and logged once, an ended input or exception adds nothing, and "No valid rating selected" is never printed |
| Workflows.RatingRunShape | final_movies/all_searches.py:172-223 | a completed run searched once for a value of `index_to_code` and logged it; a run that ran out of input or raised never searched; an abort is the failed search |
| Workflows.RatingRunNeverUnselected | final_movies/all_searches.py:209-211 | "No valid rating selected. Exiting." is never printed: the loop leaves only with a rating selected |
| Workflows.RatingRunOnAnswers | final_movies/all_searches.py:192-217 | after j refused choices and an accepted choice j, the run has printed j refusal notices and searches the code stored under choice j |
| Workflows.RatingRunAllRefused | final_movies/all_searches.py:192-207 | input runs out exactly when every choice is refused |
| Workflows.LegacyGenreWorkflow | all_searches.py:120-153 | the older workflow builds one table row per listed genre, or aborts with no table when a lookup fails; the run is `LegacyGenreRun` |
| Workflows.LegacyGenreRunAborts | all_searches.py:36-47 | when listing genres or a lookup fails, nothing is printed or read and the run aborts with the connection error |
| Workflows.LegacyGenreRunListed | all_searches.py:53-66 | otherwise the older run is the current genre run over the built `genre_data`, so a completed run searches the id of a listed genre |
| Workflows.LegacyRatingWorkflow | all_searches.py:156-194 | the older workflow prints the menu, runs the rating loop and the search; the run is `LegacyRatingRun` |
| Workflows.LegacyRatingRunShape | all_searches.py:163-194 | the menu comes first; a completed run searched and logged one of the five listed codes; a run that ran out of input or raised never searched; an abort is the failed search |
| Workflows.LegacyRatingRunOnAnswers | all_searches.py:171-187 | after the menu and j refused choices, an accepted choice j searches the code at position j |
| Workflows.LegacyRatingRunAllRefused | all_searches.py:171-181 | input runs out exactly when every choice is refused |
| LogStats.RatingNameFallback | final_movies/log_stats.py:29-30 | a known code is shown by its description and an unknown one by itself |
| LogStats.LabelsByType | final_movies/log_stats.py:15-33 | keyword labels are lower-cased; a missing keyword raises KeyError; rating labels never fail and fall back to the code (or "None"); other types show `type: {params}` |
| LogStats.KeywordLabelIgnoresCase | final_movies/log_stats.py:22-23 | a keyword and its lower-cased form get the same label |
| LogStats.LoggedSearchesHaveLabels | final_movies/all_searches.py:126-217 | every entry the workflows log gets a label without error: the keyword, "Genre: name (from-to)", and the description of a listed rating |
| LogStats.RatingTablesDistinct | final_movies/all_searches.py:18-24 | neither revision's rating table repeats a code |
| LogStats.NumberedLines | final_movies/log_stats.py:67-75 | line k is "k+1. text" while no text raised; the first text that raises ends the listing with the error line |
| LogStats.NumberedAllOk | final_movies/log_stats.py:67-72 | without an error there is one line per entry |
| LogStats.NumberedSnoc | final_movies/log_stats.py:67-72 | one more entry after successful ones adds one line |
| LogStats.PrintNumbered | final_movies/log_stats.py:67-75 | the `enumerate(..., 1)` loop prints exactly the numbered listing |
| LogStats.NumberedStopsAtError | final_movies/log_stats.py:74-75 | nothing after the first error is printed |
| LogStats.ListingOne | final_movies/log_stats.py:110-115 | one entry is listed as "1. " and its text |
| LogStats.TopStages | final_movies/log_stats.py:53-62 | group by (search_type, params) counting each group under "count", sort on that same count descending, then limit |
| LogStats.UniqueStages | final_movies/log_stats.py:95-105 | group by (search_type, params) keeping the latest timestamp and the first results_count, sort on that latest timestamp descending, then limit |
| LogStats.GroupIdMapsFields | log_stats.py:52 | the group `_id` maps each field to "$params." + field, each once, and holds nothing else |
| LogStats.PipelinesSortOnAccumulatedFields | final_movies/log_stats.py:53-105 | each pipeline sorts on a field its group stage accumulates (the count, or the latest timestamp), and the field each display prints is accumulated by the group |
| LogStats.ListEntries | final_movies/log_stats.py:64-75 | the store's error gives the error line; otherwise the entries are listed numbered |
| LogStats.DisplayTopSearches | final_movies/log_stats.py:36-75 | the heading, then "idx. label, count: c" per group, and the pipeline sent |
| LogStats.DisplayLastUniqueSearches | final_movies/log_stats.py:78-118 | the heading, then "idx. label, n results" per search, and the pipeline sent |
| LogStats.LegacyLabelsArePrefixFree | log_stats.py:17-24 | the older keyword and genre labels are the current ones without the "Keyword: " and "Genre: " prefixes, and fail on the same inputs |
| LogStats.DisplayAggregateLogs | log_stats.py:30-67 | the heading, then "idx. label, count: c" per group, and the match/group/sort/limit pipeline sent |
| LogStats.LegacyDisplayTopSearches | log_stats.py:73-89 | top keywords and then top genre and year ranges, each block with its own heading, pipeline and error line, limited to five |
| LogStats.LegacyDisplayLastUniqueSearches | log_stats.py:92-136 | per-type lines: the keyword, the genre with its years, the rating description or code, or the raw params |
| LogStats.LegacyDisplayLastRatingSearches | log_stats.py:139-156 | the query sent is the rating find, newest first, limited to five; the lines are "idx. Rating: name \| n results" for each entry found, or the error line |
| LogStats.LegacyRatingLines | log_stats.py:149-153 | a rating line fails only when the entry has no rating (KeyError), and a listed code is shown by its description |
| LogStatsExamples.KeywordLabelExample | tests/test_log_stats.py:8-10 | "Star Wars" is labelled "Keyword: star wars" |
| LogStatsExamples.YearsShown | tests/test_log_stats.py:12-15 | 1990 and 2000 are printed as "1990" and "2000" |
| LogStatsExamples.GenreLabelExample | tests/test_log_stats.py:12-15 | Action 1990-2000 is labelled "Genre: Action (1990-2000)" |
| LogStatsExamples.RatingLabelExample | tests/test_log_stats.py:17-21 | "R" with the table {"R": "Restricted"} is labelled "Rating: Restricted" |
| LogStatsExamples.UniqueTextExample | tests/test_log_stats.py:36-47 | a keyword search "test" with ten results reads "Keyword: test, 10 results" |
| LogStatsExamples.UniqueListingExample | tests/test_log_stats.py:36-47 | alone in the answer, it is listed as "1. Keyword: test, 10 results" |

## Left out

- Database and log-store access are left out: connecting, executing SQL, `collection.aggregate`, `find` and `insert_one`. Their answers are parameters: a `Driver` outcome, a `Catalog` function from filter to movies or error, and the entries an aggregation returns. The pipelines are modelled as the data sent, not run.
- `log_writer.py` (timestamps, `insert_one`, its error handling) and `final_movies/main.py` (the menu loop) are not part of this model.
- `display_genre_table` and `display_ratings_table` are not defined in the files of the current revision. Their results (`genre_data`, `index_to_code`) are inputs, and so is `get_all_genres` with its `lru_cache`.
- PrettyTable rendering, prompts and the emoji headings of the genre table are left out. A page is its header line, its column names and its rows.
- Text is ASCII only. `isdigit` accepts only `0-9`, `lower` changes only `A-Z`, and whitespace is the ASCII set Python strips. Unicode digits, case mappings and `int()` with underscores are not modelled.
- Records.ReprParams: Python's `repr` escaping of quotes inside strings is not modelled.
- Paginator.PaginateResults: requires `page_size >= 1`. A zero page size raises ZeroDivisionError in the source, and a negative one gives meaningless pages. The `isinstance(results, list)` guard cannot fail on a typed sequence.
- QueryBuilder.PlaceholdersMatchParams: counts the placeholders in the appended clause text only. The fixed base query and ORDER BY text hold no `%`, but this is not proved about those literals.
- KeyboardInterrupt is not modelled. Only EOFError is: running out of console lines.
- Log entries whose parameters are nested structures are not modelled. The parameters are flat dictionaries of strings, integers and `None`, as the workflows write them.
- `int()` is modelled with the 4300-digit limit of CPython 3.11 and later. Older interpreters have no limit, so there the ValueError branches for long numbers do not arise.
- Text.ParseIntOfIntToString: requires the spelling to be within 4300 digits, because beyond it `int()` raises ValueError.
- SearchInput.ListedIdIsAccepted: requires the id's spelling to be within 4300 digits, for the same reason.
- `fetch_movies` passes its ProgrammingError and MySQLError to `logging.error` before returning `[]` (final_movies/mysql_connector.py:62,65). The log record is not modelled; only the `[]` is.
- The genre table of the older revision is modelled as its rows of text, not as a PrettyTable layout.
