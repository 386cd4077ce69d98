/**
 * The MySQL side of the search (`mysql_connector.py`, both revisions): the `(query, params)`
 * pair `search_movies` builds from its optional filters, the fallbacks of `fetch_movies`, and
 * the first-row-or-default extraction of the per-genre lookups. Executing the query is the
 * database's business; what the driver answers is an input here.
 */
module QueryBuilder {
  import opened Wrappers
  import opened Text

  // ---------------------------------------------------------------------------------------
  // Filters and clauses

  /** A bound query parameter: pymysql substitutes a string or an integer for each `%s`. */
  datatype Param = TextParam(text: string) | IntParam(number: int)

  /** The keyword arguments of `search_movies`, each of which may be left out (None). */
  datatype SearchFilter = SearchFilter(
    keyword: Option<string>,
    genreId: Option<int>,
    yearFrom: Option<int>,
    yearTo: Option<int>,
    rating: Option<string>)

  /** `if keyword:` — given and non-empty. */
  predicate HasKeyword(f: SearchFilter) {
    f.keyword.Some? && f.keyword.value != []
  }

  /** `if genre_id:` — given and not 0. */
  predicate HasGenre(f: SearchFilter) {
    f.genreId.Some? && f.genreId.value != 0
  }

  /** `if year_from is not None and year_to is not None:` */
  predicate HasYears(f: SearchFilter) {
    f.yearFrom.Some? && f.yearTo.Some?
  }

  /** `if rating:` — given and non-empty. */
  predicate HasRating(f: SearchFilter) {
    f.rating.Some? && f.rating.value != []
  }

  /** One WHERE condition the search can add. */
  datatype Clause = TitleLike(pattern: string) | GenreIs(id: int) | ReleasedBetween(from: int, to: int) | RatedAs(code: string)

  /** The placeholder pymysql fills in. */
  const Mark: string := "%s"

  /** The query every search starts from; `WHERE 1=1` lets each filter begin with AND. */
  const BaseQuery: string :=
    "\n        SELECT DISTINCT f.title, f.release_year, f.rating\n        FROM film f\n        LEFT JOIN film_category fc ON f.film_id = fc.film_id\n        WHERE 1=1\n    "

  const OrderBy: string := " ORDER BY f.release_year, f.title"

  /** The SQL text a clause appends. */
  function ClauseSql(c: Clause): string {
    match c
    case TitleLike(_) => " AND LOWER(f.title) LIKE " + Mark
    case GenreIs(_) => " AND fc.category_id = " + Mark
    case ReleasedBetween(_, _) => " AND f.release_year BETWEEN " + Mark + " AND " + Mark
    case RatedAs(_) => " AND f.rating = " + Mark
  }

  /** The parameters a clause binds, in the order of its placeholders. */
  function ClauseParams(c: Clause): seq<Param> {
    match c
    case TitleLike(p) => [TextParam(p)]
    case GenreIs(id) => [IntParam(id)]
    case ReleasedBetween(a, b) => [IntParam(a), IntParam(b)]
    case RatedAs(r) => [TextParam(r)]
  }

  /** Position of a clause kind in the fixed order keyword, genre, years, rating. */
  function Rank(c: Clause): nat {
    match c
    case TitleLike(_) => 0
    case GenreIs(_) => 1
    case ReleasedBetween(_, _) => 2
    case RatedAs(_) => 3
  }

  /** The LIKE pattern for a keyword: `f"%{keyword.lower()}%"`. */
  function TitlePattern(keyword: string): string {
    "%" + Lower(keyword) + "%"
  }

  function KeywordClause(f: SearchFilter): seq<Clause> {
    if HasKeyword(f) then [TitleLike(TitlePattern(f.keyword.value))] else []
  }

  function GenreClause(f: SearchFilter): seq<Clause> {
    if HasGenre(f) then [GenreIs(f.genreId.value)] else []
  }

  function YearsClause(f: SearchFilter): seq<Clause> {
    if HasYears(f) then [ReleasedBetween(f.yearFrom.value, f.yearTo.value)] else []
  }

  function RatingClause(f: SearchFilter): seq<Clause> {
    if HasRating(f) then [RatedAs(f.rating.value)] else []
  }

  /** The clauses a filter asks for, in the order the search appends them. */
  function Clauses(f: SearchFilter): seq<Clause> {
    KeywordClause(f) + GenreClause(f) + YearsClause(f) + RatingClause(f)
  }

  function Sql(cs: seq<Clause>): string {
    if cs == [] then "" else ClauseSql(cs[0]) + Sql(cs[1..])
  }

  function Params(cs: seq<Clause>): seq<Param> {
    if cs == [] then [] else ClauseParams(cs[0]) + Params(cs[1..])
  }

  lemma {:induction false} SqlAppend(cs: seq<Clause>, c: Clause)
    ensures Sql(cs + [c]) == Sql(cs) + ClauseSql(c)
  {
    if cs == [] {
      assert [] + [c] == [c];
    } else {
      assert (cs + [c])[1..] == cs[1..] + [c];
      SqlAppend(cs[1..], c);
    }
  }

  lemma {:induction false} ParamsAppend(cs: seq<Clause>, c: Clause)
    ensures Params(cs + [c]) == Params(cs) + ClauseParams(c)
  {
    if cs == [] {
      assert [] + [c] == [c];
    } else {
      assert (cs + [c])[1..] == cs[1..] + [c];
      ParamsAppend(cs[1..], c);
    }
  }

  /**
   * `search_movies`' construction of the query and its parameters: start from the base query,
   * append each filter that is present in the fixed order, then the ORDER BY.
   */
  method SearchQuery(f: SearchFilter) returns (query: string, params: seq<Param>)
    ensures query == BaseQuery + Sql(Clauses(f)) + OrderBy
    ensures params == Params(Clauses(f))
  {
    query := BaseQuery;
    params := [];
    if HasKeyword(f) {
      query, params := AddClause(query, params, [], TitleLike(TitlePattern(f.keyword.value)));
    }
    ghost var added := KeywordClause(f);
    if HasGenre(f) {
      query, params := AddClause(query, params, added, GenreIs(f.genreId.value));
    } else {
      assert added + GenreClause(f) == added;
    }
    added := added + GenreClause(f);
    if HasYears(f) {
      query, params := AddClause(query, params, added, ReleasedBetween(f.yearFrom.value, f.yearTo.value));
    } else {
      assert added + YearsClause(f) == added;
    }
    added := added + YearsClause(f);
    if HasRating(f) {
      query, params := AddClause(query, params, added, RatedAs(f.rating.value));
    } else {
      assert added + RatingClause(f) == added;
    }
    added := added + RatingClause(f);
    query := query + OrderBy;
  }

  /** One step of `search_movies`: append a present filter's SQL text and its parameters. */
  method AddClause(query: string, params: seq<Param>, ghost added: seq<Clause>, c: Clause)
    returns (query': string, params': seq<Param>)
    requires query == BaseQuery + Sql(added) && params == Params(added)
    ensures query' == BaseQuery + Sql(added + [c]) && params' == Params(added + [c])
  {
    Extend(BaseQuery, added, c);
    query' := query + ClauseSql(c);
    params' := params + ClauseParams(c);
  }

  /** Appending one more clause to a query that already holds `added`. */
  lemma Extend(base: string, added: seq<Clause>, c: Clause)
    ensures base + Sql(added) + ClauseSql(c) == base + Sql(added + [c])
    ensures Params(added) + ClauseParams(c) == Params(added + [c])
  {
    SqlAppend(added, c);
    ParamsAppend(added, c);
    ConcatAssoc(base, Sql(added), ClauseSql(c));
  }

  lemma ConcatAssoc(x: string, y: string, z: string)
    ensures x + y + z == x + (y + z)
  {
  }

  // ---------------------------------------------------------------------------------------
  // What the clauses contain

  /** The kinds of clause present, by rank. */
  function Kinds(cs: seq<Clause>): set<nat> {
    set c | c in cs :: Rank(c)
  }

  /**
   * Each clause kind is present exactly when its filter is given (truthy), and then the clause
   * carries that filter's values: the lower-cased keyword between `%` signs, the genre id, both
   * years in order, the rating code.
   */
  lemma ClausesIffFilters(f: SearchFilter)
    ensures 0 in Kinds(Clauses(f)) <==> HasKeyword(f)
    ensures 1 in Kinds(Clauses(f)) <==> HasGenre(f)
    ensures 2 in Kinds(Clauses(f)) <==> HasYears(f)
    ensures 3 in Kinds(Clauses(f)) <==> HasRating(f)
    ensures HasKeyword(f) ==> TitleLike(TitlePattern(f.keyword.value)) in Clauses(f)
    ensures HasGenre(f) ==> GenreIs(f.genreId.value) in Clauses(f)
    ensures HasYears(f) ==> ReleasedBetween(f.yearFrom.value, f.yearTo.value) in Clauses(f)
    ensures HasRating(f) ==> RatedAs(f.rating.value) in Clauses(f)
  {
    var cs := Clauses(f);
    if HasKeyword(f) { assert Rank(TitleLike(TitlePattern(f.keyword.value))) == 0; }
    if HasGenre(f) { assert Rank(GenreIs(f.genreId.value)) == 1; }
    if HasYears(f) { assert Rank(ReleasedBetween(f.yearFrom.value, f.yearTo.value)) == 2; }
    if HasRating(f) { assert Rank(RatedAs(f.rating.value)) == 3; }
  }

  /** The clauses come in the fixed order keyword, genre, years, rating, each kind at most once. */
  lemma ClausesInFixedOrder(f: SearchFilter)
    ensures forall i, j :: 0 <= i < j < |Clauses(f)| ==> Rank(Clauses(f)[i]) < Rank(Clauses(f)[j])
    ensures |Clauses(f)| <= 4
  {
  }

  /** One parameter per clause, except two for the year range. */
  lemma ParamCount(f: SearchFilter)
    ensures |Params(Clauses(f))| ==
      (if HasKeyword(f) then 1 else 0) + (if HasGenre(f) then 1 else 0)
      + (if HasYears(f) then 2 else 0) + (if HasRating(f) then 1 else 0)
  {
    var k, g, y, r := KeywordClause(f), GenreClause(f), YearsClause(f), RatingClause(f);
    ParamsConcat(k + g + y, r);
    ParamsConcat(k + g, y);
    ParamsConcat(k, g);
  }

  lemma {:induction false} ParamsConcat(a: seq<Clause>, b: seq<Clause>)
    ensures Params(a + b) == Params(a) + Params(b)
  {
    if a == [] {
      assert a + b == b;
    } else {
      assert (a + b)[1..] == a[1..] + b;
      ParamsConcat(a[1..], b);
    }
  }

  // ---------------------------------------------------------------------------------------
  // Placeholders

  /** How many times `c` occurs in `s`. */
  function Occurrences(c: char, s: string): nat {
    if s == [] then 0 else (if s[0] == c then 1 else 0) + Occurrences(c, s[1..])
  }

  predicate NoPercent(s: string) {
    forall i :: 0 <= i < |s| ==> s[i] != '%'
  }

  lemma {:induction false} NoPercentNoOccurrence(s: string)
    requires NoPercent(s)
    ensures Occurrences('%', s) == 0
  {
    if s != [] {
      NoPercentNoOccurrence(s[1..]);
    }
  }

  lemma {:induction false} OccurrencesAppend(a: string, b: string)
    ensures Occurrences('%', a + b) == Occurrences('%', a) + Occurrences('%', b)
  {
    if a == [] {
      assert a + b == b;
    } else {
      assert (a + b)[1..] == a[1..] + b;
      OccurrencesAppend(a[1..], b);
    }
  }

  lemma OneMark(a: string)
    requires NoPercent(a)
    ensures Occurrences('%', a + Mark) == 1
  {
    NoPercentNoOccurrence(a);
    OccurrencesAppend(a, Mark);
    assert Mark[1..] == "s" && "s"[1..] == "";
  }

  lemma ClauseMarks(c: Clause)
    ensures Occurrences('%', ClauseSql(c)) == |ClauseParams(c)|
  {
    match c
    case TitleLike(_) => OneMark(" AND LOWER(f.title) LIKE ");
    case GenreIs(_) => OneMark(" AND fc.category_id = ");
    case RatedAs(_) => OneMark(" AND f.rating = ");
    case ReleasedBetween(_, _) =>
      var a, b := " AND f.release_year BETWEEN ", " AND ";
      OneMark(a);
      OneMark(b);
      OccurrencesAppend(a + Mark, b + Mark);
      assert a + Mark + (b + Mark) == ClauseSql(c);
  }

  /**
   * The filter text appended to the base query has exactly one placeholder per parameter: every
   * clause has as many as it binds values, in the same order.
   */
  lemma {:induction false} PlaceholdersMatchParams(cs: seq<Clause>)
    ensures Occurrences('%', Sql(cs)) == |Params(cs)|
  {
    if cs != [] {
      ClauseMarks(cs[0]);
      PlaceholdersMatchParams(cs[1..]);
      OccurrencesAppend(ClauseSql(cs[0]), Sql(cs[1..]));
    }
  }

  /** With no filter at all the query is the base query ordered, with no parameters. */
  lemma NoFilterSearchesEverything(f: SearchFilter)
    requires !HasKeyword(f) && !HasGenre(f) && !HasYears(f) && !HasRating(f)
    ensures Clauses(f) == [] && Params(Clauses(f)) == []
    ensures BaseQuery + Sql(Clauses(f)) + OrderBy == BaseQuery + OrderBy
  {
    assert Clauses(f) == [];
    assert Sql([]) == [] && BaseQuery + [] == BaseQuery;
  }

  // ---------------------------------------------------------------------------------------
  // Executing a query: only the outcomes are modelled

  /**
   * What the driver does with a query: rows (`fetchall()` as a list, or as some other
   * sequence type), a pymysql ProgrammingError or other MySQLError while executing, or a
   * failure to connect, which `get_mysql_connection` re-raises as ConnectionError.
   */
  datatype Driver<T> = Fetched(rows: seq<T>, isList: bool) | ProgrammingError(message: string)
    | MySqlError(message: string) | ConnectFailed(message: string)

  function ConnectionErrorText(message: string): string {
    "MySQL connection error: " + message
  }

  /** `fetch_movies` of the current revision: the rows if they are a list, otherwise `[]`. */
  function FetchMovies<T>(d: Driver<T>): Result<seq<T>> {
    match d
    case Fetched(rows, isList) => Ok(if isList then rows else [])
    case ProgrammingError(_) => Ok([])
    case MySqlError(_) => Ok([])
    case ConnectFailed(m) => Err(ConnectionErrorText(m))
  }

  /** `fetch_movies` of the older revision: whatever `fetchall()` returned. */
  function LegacyFetchMovies<T>(d: Driver<T>): Result<seq<T>> {
    match d
    case Fetched(rows, _) => Ok(rows)
    case ProgrammingError(_) => Ok([])
    case MySqlError(_) => Ok([])
    case ConnectFailed(m) => Err(ConnectionErrorText(m))
  }

  /**
   * Only a failed connection escapes `fetch_movies`; every query error becomes an empty result,
   * and the two revisions differ only when the driver hands back rows that are not a list.
   */
  lemma FetchFallbacks<T>(d: Driver<T>)
    ensures FetchMovies(d).Err? <==> d.ConnectFailed?
    ensures LegacyFetchMovies(d).Err? <==> d.ConnectFailed?
    ensures d.ProgrammingError? || d.MySqlError? ==> FetchMovies(d) == Ok([]) == LegacyFetchMovies(d)
    ensures d.Fetched? && !d.isList ==> FetchMovies(d) == Ok([])
    ensures FetchMovies(d) != LegacyFetchMovies(d) <==> d.Fetched? && !d.isList && d.rows != []
    ensures FetchMovies(d).Ok? ==> |FetchMovies(d).value| <= |LegacyFetchMovies(d).value|
  {
  }

  /** The single row of `SELECT MIN(...) AS min_year, MAX(...) AS max_year`. */
  datatype YearsRow = YearsRow(minYear: Option<int>, maxYear: Option<int>)

  /** The single row of `SELECT COUNT(DISTINCT ...) AS count`. */
  datatype CountRow = CountRow(count: int)

  /** `result[0]["min_year"], result[0]["max_year"]` if there is a row, else `(None, None)`. */
  function FirstYears(rows: seq<YearsRow>): (Option<int>, Option<int>) {
    if rows != [] then (rows[0].minYear, rows[0].maxYear) else (None, None)
  }

  /** `result[0]["count"]` if there is a row, else 0. */
  function FirstCount(rows: seq<CountRow>): int {
    if rows != [] then rows[0].count else 0
  }

  /** `get_min_max_years_for_genre`, given what the driver answers for that genre. */
  function GenreYears(d: Driver<YearsRow>): Result<(Option<int>, Option<int>)> {
    match FetchMovies(d)
    case Ok(rows) => Ok(FirstYears(rows))
    case Err(e) => Err(e)
  }

  function LegacyGenreYears(d: Driver<YearsRow>): Result<(Option<int>, Option<int>)> {
    match LegacyFetchMovies(d)
    case Ok(rows) => Ok(FirstYears(rows))
    case Err(e) => Err(e)
  }

  /** `get_genre_movie_count`, given what the driver answers for that genre. */
  function GenreCount(d: Driver<CountRow>): Result<int> {
    match FetchMovies(d)
    case Ok(rows) => Ok(FirstCount(rows))
    case Err(e) => Err(e)
  }

  function LegacyGenreCount(d: Driver<CountRow>): Result<int> {
    match LegacyFetchMovies(d)
    case Ok(rows) => Ok(FirstCount(rows))
    case Err(e) => Err(e)
  }

  /**
   * The lookups answer the first row's values when the driver returns a non-empty list, and
   * fall back to `(None, None)` and 0 on no rows, a non-list result or a query error; a failed
   * connection propagates. The older revision reads the first row of any non-empty result.
   */
  lemma LookupFallbacks(y: Driver<YearsRow>, c: Driver<CountRow>)
    ensures y.Fetched? && y.isList && y.rows != [] ==> GenreYears(y) == Ok((y.rows[0].minYear, y.rows[0].maxYear))
    ensures (y.Fetched? && (!y.isList || y.rows == [])) || y.ProgrammingError? || y.MySqlError? ==>
      GenreYears(y) == Ok((None, None))
    ensures y.Fetched? && y.rows != [] ==> LegacyGenreYears(y) == Ok((y.rows[0].minYear, y.rows[0].maxYear))
    ensures GenreYears(y).Err? <==> y.ConnectFailed?
    ensures c.Fetched? && c.isList && c.rows != [] ==> GenreCount(c) == Ok(c.rows[0].count)
    ensures (c.Fetched? && (!c.isList || c.rows == [])) || c.ProgrammingError? || c.MySqlError? ==>
      GenreCount(c) == Ok(0)
    ensures c.Fetched? && c.rows != [] ==> LegacyGenreCount(c) == Ok(c.rows[0].count)
    ensures GenreCount(c).Err? <==> c.ConnectFailed?
  {
  }
}
