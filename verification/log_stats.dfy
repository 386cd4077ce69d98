/**
 * The search-log statistics (`log_stats.py`, both revisions): the label each logged search is
 * shown with, the aggregation pipelines sent to the log store (as data: running them is the
 * store's business), and the numbered lines printed from what the store answers.
 */
module LogStats {
  import opened Wrappers
  import opened Text
  import opened Records
  import SearchInput
  import Workflows

  // ---------------------------------------------------------------------------------------
  // Python's dictionary access, as the labels use it

  /** `str(KeyError(key))`. */
  function KeyError(key: string): string {
    "'" + key + "'"
  }

  /** `params[key]`: the stored value, or KeyError. */
  function Field(params: Params, key: string): Result<Value> {
    match Get(params, key)
    case Some(v) => Ok(v)
    case None => Err(KeyError(key))
  }

  /** `value.lower()`: only a string has it. */
  function LowerValue(v: Value): Result<string> {
    match v
    case Str(s) => Ok(Lower(s))
    case Int(_) => Err("'int' object has no attribute 'lower'")
    case Null => Err("'NoneType' object has no attribute 'lower'")
  }

  /** `available_ratings.get(rating_code, rating_code)`, as an f-string shows it. */
  function RatingName(table: seq<(string, string)>, code: Value): string {
    match code
    case Str(c) => Get(table, c).GetOr(c)
    case _ => Show(code)
  }

  /** A known code is shown by its description; anything else is shown as it is. */
  lemma RatingNameFallback(table: seq<(string, string)>, code: Value)
    ensures code.Str? && Get(table, code.s).Some? ==> RatingName(table, code) == Get(table, code.s).value
    ensures code.Str? && Get(table, code.s).None? ==> RatingName(table, code) == code.s
    ensures !code.Str? ==> RatingName(table, code) == Show(code)
  {
  }

  // ---------------------------------------------------------------------------------------
  // Labels of the current revision

  /** "Genre: name (from-to)", reading the three fields in the order the f-string does. */
  function GenreYearText(params: Params, prefix: string, open: string, close: string): Result<string> {
    match Field(params, "genre_name")
    case Err(e) => Err(e)
    case Ok(name) =>
      match Field(params, "year_from")
      case Err(e) => Err(e)
      case Ok(from) =>
        match Field(params, "year_to")
        case Err(e) => Err(e)
        case Ok(to) => Ok(prefix + Show(name) + open + Show(from) + "-" + Show(to) + close)
  }

  /**
   * `format_search_label(search_type, params)`, with `available_ratings` as `table`. A label
   * can raise (a missing key, a keyword that is not a string), which the display turns into its
   * error line.
   */
  function FormatSearchLabel(table: seq<(string, string)>, searchType: string, params: Params): Result<string> {
    if searchType == "keyword" then
      match Field(params, "keyword")
      case Err(e) => Err(e)
      case Ok(k) =>
        match LowerValue(k)
        case Err(e) => Err(e)
        case Ok(s) => Ok("Keyword: " + s)
    else if searchType == "genre_year" then GenreYearText(params, "Genre: ", " (", ")")
    else if searchType == "rating" then Ok("Rating: " + RatingName(table, Get(params, "rating").GetOr(Null)))
    else Ok(searchType + ": " + ReprParams(params))
  }

  /**
   * What each kind of label says: a keyword lower-cased (so two spellings of a keyword share a
   * label), a rating by its description with the raw code as fallback and never an error, any
   * other type as `type: {params}`, and a missing field as KeyError.
   */
  lemma LabelsByType(table: seq<(string, string)>, searchType: string, params: Params, code: string)
    ensures searchType == "keyword" && Get(params, "keyword").None? ==>
      FormatSearchLabel(table, searchType, params) == Err(KeyError("keyword"))
    ensures searchType == "keyword" && Get(params, "keyword").Some? && Get(params, "keyword").value.Str? ==>
      FormatSearchLabel(table, searchType, params) == Ok("Keyword: " + Lower(Get(params, "keyword").value.s))
    ensures searchType == "rating" ==> FormatSearchLabel(table, searchType, params).Ok?
    ensures searchType == "rating" && Get(params, "rating") == Some(Str(code)) && Get(table, code).Some? ==>
      FormatSearchLabel(table, searchType, params) == Ok("Rating: " + Get(table, code).value)
    ensures searchType == "rating" && Get(params, "rating") == Some(Str(code)) && Get(table, code).None? ==>
      FormatSearchLabel(table, searchType, params) == Ok("Rating: " + code)
    ensures searchType == "rating" && Get(params, "rating").None? ==>
      FormatSearchLabel(table, searchType, params) == Ok("Rating: None")
    ensures searchType !in {"keyword", "genre_year", "rating"} ==>
      FormatSearchLabel(table, searchType, params) == Ok(searchType + ": " + ReprParams(params))
  {
    if searchType == "rating" && Get(params, "rating").None? {
      assert RatingName(table, Null) == "None";
      assert "Rating: " + "None" == "Rating: None";
    }
  }

  /** Lower-casing is idempotent, so a keyword and its lower-cased form get the same label. */
  lemma KeywordLabelIgnoresCase(table: seq<(string, string)>, keyword: string)
    ensures FormatSearchLabel(table, "keyword", [("keyword", Str(keyword))])
         == FormatSearchLabel(table, "keyword", [("keyword", Str(Lower(keyword)))])
  {
    LowerIdempotent(keyword);
  }

  /**
   * Every entry the search workflows log gets a label without error: the lower-cased keyword,
   * the genre with its year range, the rating's description for a listed code.
   */
  lemma LoggedSearchesHaveLabels(keyword: string, name: string, id: int, yearFrom: int, yearTo: int, k: nat)
    requires k < |SearchInput.Ratings|
    ensures FormatSearchLabel(SearchInput.Ratings, "keyword", [("keyword", Str(Lower(keyword)))]) == Ok("Keyword: " + Lower(keyword))
    ensures FormatSearchLabel(SearchInput.Ratings, "genre_year", Workflows.GenreLogParams(name, id, yearFrom, yearTo))
         == Ok("Genre: " + name + " (" + IntToString(yearFrom) + "-" + IntToString(yearTo) + ")")
    ensures FormatSearchLabel(SearchInput.Ratings, "rating", [("rating", Str(SearchInput.Ratings[k].0))])
         == Ok("Rating: " + SearchInput.Ratings[k].1)
  {
    LowerIdempotent(keyword);
    var p := Workflows.GenreLogParams(name, id, yearFrom, yearTo);
    assert |"genre_name"| != |"year_from"| && |"genre_id"| != |"year_from"|;
    assert |"genre_name"| != |"year_to"| && |"genre_id"| != |"year_to"| && |"year_from"| != |"year_to"|;
    assert Get(p, "genre_name") == Some(Str(name));
    assert Get(p, "year_from") == Some(Int(yearFrom)) by {
      assert Get(p, "year_from") == Get(p[1..], "year_from") == Get(p[1..][1..], "year_from");
    }
    assert Get(p, "year_to") == Some(Int(yearTo)) by {
      assert Get(p, "year_to") == Get(p[1..], "year_to") == Get(p[1..][1..], "year_to")
          == Get(p[1..][1..][1..], "year_to");
    }
    RatingTablesDistinct();
    GetListed(SearchInput.Ratings, k);
  }

  /** Neither revision's table repeats a code. */
  lemma RatingTablesDistinct()
    ensures DistinctKeys(SearchInput.Ratings) && DistinctKeys(SearchInput.LegacyRatings)
  {
    SearchInput.RatingCodesInOrder();
    var codes := Keys(SearchInput.Ratings);
    assert forall i, j :: 0 <= i < j < 5 ==> codes[i] != codes[j];
  }

  // ---------------------------------------------------------------------------------------
  // Numbered listings

  /** The line printed when the store or a label raises: `f"❌ Error fetching logs: {e}"`. */
  function ErrorLine(e: string): string {
    "❌ Error fetching logs: " + e
  }

  /**
   * The lines of `for idx, entry in enumerate(results, start): print(f"{idx}. {text}")` inside
   * a `try`: one numbered line per entry until the first entry whose text raises, which prints
   * the error line and ends the listing.
   */
  function Numbered(texts: seq<Result<string>>, start: nat): seq<string> {
    if texts == [] then []
    else match texts[0]
      case Err(e) => [ErrorLine(e)]
      case Ok(t) => [NatToString(start) + ". " + t] + Numbered(texts[1..], start + 1)
  }

  predicate AllOk(texts: seq<Result<string>>) {
    forall i :: 0 <= i < |texts| ==> texts[i].Ok?
  }

  /**
   * Numbering starts at `start` and goes up by one per entry; when no text raises there is one
   * line per entry, and otherwise the listing stops with the error of the first text that raises.
   */
  lemma {:induction false} NumberedLines(texts: seq<Result<string>>, start: nat, k: nat)
    requires k < |texts| && AllOk(texts[..k])
    ensures |Numbered(texts, start)| > k
    ensures texts[k].Ok? ==> Numbered(texts, start)[k] == NatToString(start + k) + ". " + texts[k].value
    ensures texts[k].Err? ==> Numbered(texts, start)[k] == ErrorLine(texts[k].error) && |Numbered(texts, start)| == k + 1
    decreases k
  {
    if k > 0 {
      assert texts[0] == texts[..k][0];
      assert texts[1..][..k - 1] == texts[..k][1..];
      NumberedLines(texts[1..], start + 1, k - 1);
      assert texts[1..][k - 1] == texts[k];
    }
  }

  lemma {:induction false} NumberedAllOk(texts: seq<Result<string>>, start: nat)
    requires AllOk(texts)
    ensures |Numbered(texts, start)| == |texts|
  {
    if texts != [] {
      NumberedAllOk(texts[1..], start + 1);
    }
  }

  lemma {:induction false} NumberedSnoc(texts: seq<Result<string>>, t: Result<string>, start: nat)
    requires AllOk(texts)
    ensures Numbered(texts + [t], start) == Numbered(texts, start) + Numbered([t], start + |texts|)
  {
    if texts == [] {
      assert texts + [t] == [t];
    } else {
      assert (texts + [t])[1..] == texts[1..] + [t];
      NumberedSnoc(texts[1..], t, start + 1);
    }
  }

  /** The enumerate loop of the display functions, over the texts of the entries in order. */
  method PrintNumbered(texts: seq<Result<string>>) returns (lines: seq<string>)
    ensures lines == Numbered(texts, 1)
  {
    lines := [];
    var i := 0;
    while i < |texts|
      invariant i <= |texts| && AllOk(texts[..i])
      invariant lines == Numbered(texts[..i], 1)
    {
      NumberedSnoc(texts[..i], texts[i], 1);
      assert texts[..i + 1] == texts[..i] + [texts[i]];
      match texts[i]
      case Err(e) =>
        lines := lines + [ErrorLine(e)];
        assert lines == Numbered(texts[..i + 1], 1);
        assert texts[..i + 1] + texts[i + 1..] == texts;
        NumberedStopsAtError(texts[..i + 1], texts[i + 1..], 1);
        return;
      case Ok(t) =>
        lines := lines + [NatToString(1 + i) + ". " + t];
        i := i + 1;
    }
    assert texts[..i] == texts;
  }

  /** Nothing after the first error is printed. */
  lemma {:induction false} NumberedStopsAtError(texts: seq<Result<string>>, more: seq<Result<string>>, start: nat)
    requires texts != [] && AllOk(texts[..|texts| - 1]) && texts[|texts| - 1].Err?
    ensures Numbered(texts + more, start) == Numbered(texts, start)
  {
    if |texts| > 1 {
      assert (texts + more)[1..] == texts[1..] + more;
      assert texts[1..][..|texts[1..]| - 1] == texts[..|texts| - 1][1..];
      NumberedStopsAtError(texts[1..], more, start + 1);
    } else {
      assert (texts + more)[0] == texts[0];
    }
  }

  /** A store answer with one entry is listed as that entry's text, numbered 1. */
  lemma ListingOne(e: Entry, text: Entry -> Result<string>)
    requires text(e).Ok?
    ensures Listing(Ok([e]), text) == ["1. " + text(e).value]
  {
    var texts := Texts([e], text);
    assert texts == [text(e)];
    assert texts[1..] == [];
    assert NatToString(1) == [DigitChar(1)] == "1";
    assert Numbered(texts, 1) == [NatToString(1) + ". " + text(e).value] + Numbered(texts[1..], 2);
    assert Numbered(texts[1..], 2) == [];
    assert "1" + ". " == "1. ";
  }

  // ---------------------------------------------------------------------------------------
  // Pipelines, as data

  datatype Accumulator = Sum(n: int) | MaxOf(path: string) | FirstOf(path: string)

  /** An aggregation stage; a `$group` `_id` is a dictionary from names to field paths. */
  datatype Stage =
    | MatchStage(filter: Params)
    | GroupStage(id: seq<(string, string)>, fields: seq<(string, Accumulator)>)
    | SortStage(key: string, direction: int)
    | LimitStage(n: int)

  const ByTypeAndParams: seq<(string, string)> := [("search_type", "$search_type"), ("params", "$params")]

  /** The group field the top-searches lines show as `count`. */
  const TopShown: string := "count"

  /** The group field the unique-searches lines show as `results`. */
  const UniqueShown: string := "results_count"

  /** What the first group stage of `stages` accumulates under `name`, if it has such a field. */
  function Accumulated(stages: seq<Stage>, name: string): Option<Accumulator> {
    if stages == [] then None
    else if stages[0].GroupStage? then Get(stages[0].fields, name)
    else Accumulated(stages[1..], name)
  }

  /** `display_top_searches(limit)` of the current revision: count each (type, params), most frequent first. */
  function TopStages(limit: int): (stages: seq<Stage>)
    ensures |stages| == 3 && stages[0].GroupStage? && stages[0].id == ByTypeAndParams
    ensures stages[0].fields == [(TopShown, Sum(1))]
    ensures stages[1] == SortStage(TopShown, -1) && stages[2] == LimitStage(limit)
  {
    [GroupStage(ByTypeAndParams, [("count", Sum(1))]), SortStage("count", -1), LimitStage(limit)]
  }

  /** `display_last_unique_searches(limit)` (both revisions; the older one always uses 5): latest first. */
  function UniqueStages(limit: int): (stages: seq<Stage>)
    ensures |stages| == 3 && stages[0].GroupStage? && stages[0].id == ByTypeAndParams
    ensures stages[0].fields == [("latest_timestamp", MaxOf("$timestamp")), (UniqueShown, FirstOf("$results_count"))]
    ensures stages[1] == SortStage("latest_timestamp", -1) && stages[2] == LimitStage(limit)
  {
    [GroupStage(ByTypeAndParams, [("latest_timestamp", MaxOf("$timestamp")), ("results_count", FirstOf("$results_count"))]),
     SortStage("latest_timestamp", -1), LimitStage(limit)]
  }

  /** `"$params." + field`. */
  function ParamPath(field: string): string {
    "$params." + field
  }

  predicate HasKey(id: seq<(string, string)>, key: string) {
    exists i :: 0 <= i < |id| && id[i].0 == key
  }

  /**
   * `{field: f"$params.{field}" for field in group_fields}`: a repeated field keeps its first
   * position (its value is the same each time).
   */
  function GroupId(fields: seq<string>): seq<(string, string)>
    decreases |fields|
  {
    if fields == [] then []
    else
      var id := GroupId(fields[..|fields| - 1]);
      var f := fields[|fields| - 1];
      if HasKey(id, f) then id else id + [(f, ParamPath(f))]
  }

  /** The group `_id` maps every field to its `$params.` path, each once, and holds nothing else. */
  lemma {:induction false} GroupIdMapsFields(fields: seq<string>)
    ensures forall i, j :: 0 <= i < j < |GroupId(fields)| ==> GroupId(fields)[i].0 != GroupId(fields)[j].0
    ensures forall i :: 0 <= i < |GroupId(fields)| ==>
      GroupId(fields)[i].0 in fields && GroupId(fields)[i].1 == ParamPath(GroupId(fields)[i].0)
    ensures forall f :: f in fields ==> (f, ParamPath(f)) in GroupId(fields)
    decreases |fields|
  {
    if fields != [] {
      var init := fields[..|fields| - 1];
      var f := fields[|fields| - 1];
      GroupIdMapsFields(init);
      var id := GroupId(init);
      forall g | g in fields
        ensures (g, ParamPath(g)) in GroupId(fields)
      {
        if g != f {
          var k :| 0 <= k < |fields| && fields[k] == g;
          assert init[k] == g;
        } else if HasKey(id, f) {
          var i :| 0 <= i < |id| && id[i].0 == f;
          assert id[i] == (f, ParamPath(f));
        }
      }
      forall i | 0 <= i < |GroupId(fields)|
        ensures GroupId(fields)[i].0 in fields
      {
        if i < |id| {
          assert id[i].0 in init;
        }
      }
    }
  }

  /**
   * The stages of the older `display_aggregate_logs`: always match, group with a count, sort by
   * count descending, limit, in that order.
   */
  function AggregateStages(matchFilter: Params, groupFields: seq<string>, limit: int): (stages: seq<Stage>)
    ensures |stages| == 4 && stages[0] == MatchStage(matchFilter)
    ensures stages[1] == GroupStage(GroupId(groupFields), [("count", Sum(1))])
    ensures stages[2] == SortStage("count", -1) && stages[3] == LimitStage(limit)
  {
    [MatchStage(matchFilter), GroupStage(GroupId(groupFields), [("count", Sum(1))]), SortStage("count", -1), LimitStage(limit)]
  }

  const DefaultLimit: int := 5

  /**
   * Every pipeline sorts on a field its group stage computes, and the field a display shows is
   * one too: the top searches sort on and show the number of log entries in the group; the
   * unique searches sort on the group's latest timestamp and show the result count of its
   * first entry.
   */
  lemma PipelinesSortOnAccumulatedFields(limit: int, matchFilter: Params, groupFields: seq<string>)
    ensures Accumulated(TopStages(limit), TopStages(limit)[1].key) == Some(Sum(1))
    ensures Accumulated(TopStages(limit), TopShown) == Some(Sum(1))
    ensures Accumulated(UniqueStages(limit), UniqueStages(limit)[1].key) == Some(MaxOf("$timestamp"))
    ensures Accumulated(UniqueStages(limit), UniqueShown) == Some(FirstOf("$results_count"))
    ensures Accumulated(AggregateStages(matchFilter, groupFields, limit), AggregateStages(matchFilter, groupFields, limit)[2].key)
      == Some(Sum(1))
  {
    var agg := AggregateStages(matchFilter, groupFields, limit);
    assert Accumulated(agg, "count") == Accumulated(agg[1..], "count");
  }

  // ---------------------------------------------------------------------------------------
  // Displays of the current revision

  /**
   * A grouped search as the store answers it: its type, its parameters and the number a display
   * shows (the group's `TopShown` or `UniqueShown` field).
   */
  datatype Entry = Entry(searchType: string, params: Params, number: int)

  const TopHeading: string := "\n=== Top Popular Searches (All Types) ==="
  const UniqueHeading: string := "\n=== Last Unique Searches ==="

  function TopText(e: Entry): Result<string> {
    match FormatSearchLabel(SearchInput.Ratings, e.searchType, e.params)
    case Err(err) => Err(err)
    case Ok(shown) => Ok(shown + ", count: " + IntToString(e.number))
  }

  function UniqueText(e: Entry): Result<string> {
    match FormatSearchLabel(SearchInput.Ratings, e.searchType, e.params)
    case Err(err) => Err(err)
    case Ok(shown) => Ok(shown + ", " + IntToString(e.number) + " results")
  }

  /** The text of each entry, in the store's order. */
  function Texts(entries: seq<Entry>, text: Entry -> Result<string>): (texts: seq<Result<string>>)
    ensures |texts| == |entries|
    ensures forall i :: 0 <= i < |entries| ==> texts[i] == text(entries[i])
  {
    seq(|entries|, i requires 0 <= i < |entries| => text(entries[i]))
  }

  /** The listing under a heading: the store's error, or the numbered texts of its entries. */
  function Listing(answer: Result<seq<Entry>>, text: Entry -> Result<string>): seq<string> {
    match answer
    case Err(e) => [ErrorLine(e)]
    case Ok(entries) => Numbered(Texts(entries, text), 1)
  }

  /** The `try` block of a display: the store's error line, or the numbered entries. */
  method ListEntries(answer: Result<seq<Entry>>, text: Entry -> Result<string>) returns (lines: seq<string>)
    ensures lines == Listing(answer, text)
  {
    match answer
    case Err(e) =>
      lines := [ErrorLine(e)];
    case Ok(entries) =>
      lines := PrintNumbered(Texts(entries, text));
  }

  /**
   * `display_top_searches(limit)`: the pipeline it sends, and what it prints given the store's
   * answer to that pipeline.
   */
  method DisplayTopSearches(limit: int, answer: Result<seq<Entry>>) returns (stages: seq<Stage>, lines: seq<string>)
    ensures stages == TopStages(limit)
    ensures lines == [TopHeading] + Listing(answer, TopText)
  {
    stages := TopStages(limit);
    var listing := ListEntries(answer, TopText);
    lines := [TopHeading] + listing;
  }

  /** `display_last_unique_searches(limit)` of the current revision. */
  method DisplayLastUniqueSearches(limit: int, answer: Result<seq<Entry>>) returns (stages: seq<Stage>, lines: seq<string>)
    ensures stages == UniqueStages(limit)
    ensures lines == [UniqueHeading] + Listing(answer, UniqueText)
  {
    stages := UniqueStages(limit);
    var listing := ListEntries(answer, UniqueText);
    lines := [UniqueHeading] + listing;
  }

  // ---------------------------------------------------------------------------------------
  // The older revision

  /** `format_keyword_label(d)`: the grouped keyword, lower-cased. */
  function KeywordLabel(d: Params): Result<string> {
    match Field(d, "keyword")
    case Err(e) => Err(e)
    case Ok(k) => LowerValue(k)
  }

  /** `format_genre_year_label(d)`: "name (from-to)". */
  function GenreYearLabel(d: Params): Result<string> {
    GenreYearText(d, "", " (", ")")
  }

  /** The older labels are the current ones without their "Keyword: " / "Genre: " prefixes. */
  lemma LegacyLabelsArePrefixFree(table: seq<(string, string)>, d: Params)
    ensures KeywordLabel(d).Ok? <==> FormatSearchLabel(table, "keyword", d).Ok?
    ensures KeywordLabel(d).Ok? ==> FormatSearchLabel(table, "keyword", d).value == "Keyword: " + KeywordLabel(d).value
    ensures GenreYearLabel(d).Ok? <==> FormatSearchLabel(table, "genre_year", d).Ok?
    ensures GenreYearLabel(d).Ok? ==> FormatSearchLabel(table, "genre_year", d).value == "Genre: " + GenreYearLabel(d).value
  {
    match Field(d, "genre_name")
    case Err(_) =>
    case Ok(name) =>
      match Field(d, "year_from")
      case Err(_) =>
      case Ok(from) =>
        match Field(d, "year_to")
        case Err(_) =>
        case Ok(to) =>
          assert "Genre: " + Show(name) + " (" + Show(from) + "-" + Show(to) + ")"
              == "Genre: " + ("" + Show(name) + " (" + Show(from) + "-" + Show(to) + ")");
  }

  /** A group as the older aggregate answers it: the grouped fields and the count. */
  datatype Group = Group(id: Params, count: int)

  function CountText(labelOf: Params -> Result<string>, g: Group): Result<string> {
    match labelOf(g.id)
    case Err(e) => Err(e)
    case Ok(l) => Ok(l + ", count: " + IntToString(g.count))
  }

  function Heading(title: string): string {
    "\n=== " + title + " ==="
  }

  /** The listing under an aggregate heading: the store's error, or the numbered counts of its groups. */
  function GroupListing(answer: Result<seq<Group>>, labelOf: Params -> Result<string>): seq<string> {
    match answer
    case Err(e) => [ErrorLine(e)]
    case Ok(groups) => Numbered(seq(|groups|, i requires 0 <= i < |groups| => CountText(labelOf, groups[i])), 1)
  }

  /** `display_aggregate_logs(title, match_filter, group_fields, label_format_func, limit)`. */
  method DisplayAggregateLogs(title: string, matchFilter: Params, groupFields: seq<string>,
                              labelOf: Params -> Result<string>, limit: int, answer: Result<seq<Group>>)
    returns (stages: seq<Stage>, lines: seq<string>)
    ensures stages == AggregateStages(matchFilter, groupFields, limit)
    ensures lines == [Heading(title)] + GroupListing(answer, labelOf)
  {
    stages := AggregateStages(matchFilter, groupFields, limit);
    lines := [Heading(title)];
    match answer
    case Err(e) =>
      lines := lines + [ErrorLine(e)];
    case Ok(groups) =>
      var texts := seq(|groups|, i requires 0 <= i < |groups| => CountText(labelOf, groups[i]));
      var body := PrintNumbered(texts);
      lines := lines + body;
  }

  const KeywordTitle: string := "Top 5 Keyword Searches"
  const GenreYearTitle: string := "Top 5 Genre + Year Searches"

  /**
   * The older `display_top_searches`: the top keywords, then the top genre and year ranges,
   * each with its own heading, pipeline and error handling, both limited to five; an error in
   * the first block does not stop the second.
   */
  method LegacyDisplayTopSearches(keywordAnswer: Result<seq<Group>>, genreAnswer: Result<seq<Group>>)
    returns (keywordStages: seq<Stage>, genreStages: seq<Stage>, lines: seq<string>)
    ensures keywordStages == AggregateStages([("search_type", Str("keyword"))], ["keyword"], DefaultLimit)
    ensures genreStages == AggregateStages([("search_type", Str("genre_year"))], ["genre_name", "year_from", "year_to"], DefaultLimit)
    ensures lines == [Heading(KeywordTitle)] + GroupListing(keywordAnswer, KeywordLabel)
                   + [Heading(GenreYearTitle)] + GroupListing(genreAnswer, GenreYearLabel)
  {
    var first, second;
    keywordStages, first := DisplayAggregateLogs(KeywordTitle, [("search_type", Str("keyword"))], ["keyword"],
                                                 KeywordLabel, DefaultLimit, keywordAnswer);
    genreStages, second := DisplayAggregateLogs(GenreYearTitle, [("search_type", Str("genre_year"))],
                                                ["genre_name", "year_from", "year_to"], GenreYearLabel, DefaultLimit, genreAnswer);
    lines := first + second;
  }

  /** The per-type line of the older `display_last_unique_searches`. */
  function LegacyUniqueText(e: Entry): Result<string> {
    var results := ", " + IntToString(e.number) + " results";
    if e.searchType == "keyword" then
      match Field(e.params, "keyword")
      case Err(err) => Err(err)
      case Ok(k) => Ok("keyword | " + Show(k) + results)
    else if e.searchType == "genre_year" then
      match GenreYearText(e.params, "genre_year | ", ", ", "")
      case Err(err) => Err(err)
      case Ok(t) => Ok(t + results)
    else if e.searchType == "rating" then
      match Field(e.params, "rating")
      case Err(err) => Err(err)
      case Ok(code) => Ok("rating | " + RatingName(SearchInput.LegacyRatings, code) + results)
    else Ok(e.searchType + " | " + ReprParams(e.params) + results)
  }

  const LegacyUniqueHeading: string := "\n=== Last 5 Unique Searches ==="

  /** The older `display_last_unique_searches`. */
  method LegacyDisplayLastUniqueSearches(answer: Result<seq<Entry>>) returns (stages: seq<Stage>, lines: seq<string>)
    ensures stages == UniqueStages(DefaultLimit)
    ensures lines == [LegacyUniqueHeading] + Listing(answer, LegacyUniqueText)
  {
    stages := UniqueStages(DefaultLimit);
    var listing := ListEntries(answer, LegacyUniqueText);
    lines := [LegacyUniqueHeading] + listing;
  }

  /** The line of the older `display_last_rating_searches` for one logged rating search. */
  function LegacyRatingText(e: Entry): Result<string> {
    match Field(e.params, "rating")
    case Err(err) => Err(err)
    case Ok(code) => Ok("Rating: " + RatingName(SearchInput.LegacyRatings, code) + " | " + IntToString(e.number) + " results")
  }

  const LegacyRatingHeading: string := "\n=== Last 5 Rating Searches ==="

  /**
   * The older rating query, `find({"search_type": "rating"}).sort("timestamp", -1).limit(5)`,
   * written as the equivalent match, sort and limit stages.
   */
  function LegacyRatingQuery(): (stages: seq<Stage>)
    ensures |stages| == 3 && stages[0] == MatchStage([("search_type", Str("rating"))])
    ensures stages[1] == SortStage("timestamp", -1) && stages[2] == LimitStage(DefaultLimit)
  {
    [MatchStage([("search_type", Str("rating"))]), SortStage("timestamp", -1), LimitStage(DefaultLimit)]
  }

  /** The older `display_last_rating_searches`, given the five latest rating searches the store returns. */
  method LegacyDisplayLastRatingSearches(answer: Result<seq<Entry>>) returns (query: seq<Stage>, lines: seq<string>)
    ensures query == LegacyRatingQuery()
    ensures lines == [LegacyRatingHeading] + Listing(answer, LegacyRatingText)
  {
    query := LegacyRatingQuery();
    var listing := ListEntries(answer, LegacyRatingText);
    lines := [LegacyRatingHeading] + listing;
  }

  /**
   * A rating line fails only when the entry has no `rating` parameter (KeyError), and a listed
   * code is shown by its description.
   */
  lemma LegacyRatingLines(e: Entry, k: nat)
    requires k < |SearchInput.LegacyRatings|
    ensures LegacyRatingText(e).Err? <==> Get(e.params, "rating").None?
    ensures LegacyRatingText(e).Err? ==> LegacyRatingText(e).error == KeyError("rating")
    ensures Get(e.params, "rating") == Some(Str(SearchInput.LegacyRatings[k].0)) ==>
      LegacyRatingText(e) == Ok("Rating: " + SearchInput.LegacyRatings[k].1 + " | " + IntToString(e.number) + " results")
  {
    RatingTablesDistinct();
    GetListed(SearchInput.LegacyRatings, k);
  }
}

module LogStatsExamples {
  import opened Wrappers
  import opened Text
  import opened Records
  import opened LogStats

  /** A keyword label is lower-cased: "Star Wars" is shown as "Keyword: star wars". */
  lemma KeywordLabelExample()
    ensures FormatSearchLabel([], "keyword", [("keyword", Str("Star Wars"))]) == Ok("Keyword: star wars")
  {
    var w := "Star Wars";
    assert Lower(w) == [LowerChar('S'), 't', 'a', 'r', ' ', LowerChar('W'), 'a', 'r', 's'];
    assert Get([("keyword", Str(w))], "keyword") == Some(Str(w));
    assert Lower(w) == "star wars";
    assert FormatSearchLabel([], "keyword", [("keyword", Str(w))]) == Ok("Keyword: " + Lower(w));
    assert "Keyword: " + "star wars" == "Keyword: star wars";
  }

  /** The two years of the genre example, as an f-string shows them. */
  lemma YearsShown()
    ensures Show(Int(1990)) == "1990" && Show(Int(2000)) == "2000"
  {
    assert Show(Int(1990)) == "1990" by {
      assert NatToString(19) == NatToString(1) + [DigitChar(9)] == "19";
      assert NatToString(199) == NatToString(19) + [DigitChar(9)] == "199";
      assert NatToString(1990) == NatToString(199) + [DigitChar(0)] == "1990";
    }
    assert Show(Int(2000)) == "2000" by {
      assert NatToString(20) == NatToString(2) + [DigitChar(0)] == "20";
      assert NatToString(200) == NatToString(20) + [DigitChar(0)] == "200";
      assert NatToString(2000) == NatToString(200) + [DigitChar(0)] == "2000";
    }
  }

  /** A genre label shows the name and the year range: "Genre: Action (1990-2000)". */
  lemma GenreLabelExample()
    ensures FormatSearchLabel([], "genre_year", [("genre_name", Str("Action")), ("year_from", Int(1990)), ("year_to", Int(2000))])
         == Ok("Genre: Action (1990-2000)")
  {
    GenreFieldsExample();
    assert "Genre: " + "Action" + " (" + "1990" + "-" + "2000" + ")" == "Genre: Action (1990-2000)";
  }

  lemma GenreFieldsExample()
    ensures GenreYearText([("genre_name", Str("Action")), ("year_from", Int(1990)), ("year_to", Int(2000))], "Genre: ", " (", ")")
         == Ok("Genre: " + "Action" + " (" + "1990" + "-" + "2000" + ")")
  {
    var p := [("genre_name", Str("Action")), ("year_from", Int(1990)), ("year_to", Int(2000))];
    assert |"genre_name"| != |"year_from"| && |"genre_name"| != |"year_to"| && |"year_from"| != |"year_to"|;
    assert Get(p, "genre_name") == Some(Str("Action"));
    assert Get(p, "year_from") == Get(p[1..], "year_from") == Some(Int(1990));
    assert Get(p, "year_to") == Get(p[1..], "year_to") == Get(p[1..][1..], "year_to") == Some(Int(2000));
    YearsShown();
  }

  /** A rating label names the description the table gives its code: "R" is shown as "Rating: Restricted". */
  lemma RatingLabelExample()
    ensures FormatSearchLabel([("R", "Restricted")], "rating", [("rating", Str("R"))]) == Ok("Rating: Restricted")
  {
    assert Get([("R", "Restricted")], "R") == Some("Restricted");
    assert RatingName([("R", "Restricted")], Str("R")) == "Restricted";
    assert FormatSearchLabel([("R", "Restricted")], "rating", [("rating", Str("R"))]) == Ok("Rating: " + "Restricted");
    assert "Rating: " + "Restricted" == "Rating: Restricted";
  }

  /** The text of a logged keyword search "test" with ten results. */
  lemma UniqueTextExample()
    ensures UniqueText(Entry("keyword", [("keyword", Str("test"))], 10)) == Ok("Keyword: test, 10 results")
  {
    var e := Entry("keyword", [("keyword", Str("test"))], 10);
    assert Lower("test") == "test";
    assert FormatSearchLabel(SearchInput.Ratings, "keyword", e.params) == Ok("Keyword: " + "test");
    assert IntToString(10) == "10" by {
      assert NatToString(10) == NatToString(1) + [DigitChar(0)];
    }
    assert "Keyword: " + "test" == "Keyword: test";
    assert UniqueText(e) == Ok("Keyword: test" + ", " + "10" + " results");
    assert "Keyword: test" + ", " + "10" + " results" == "Keyword: test, 10 results";
  }

  /** That search, alone in the store's answer, is listed as "1. Keyword: test, 10 results". */
  lemma UniqueListingExample()
    ensures Listing(Ok([Entry("keyword", [("keyword", Str("test"))], 10)]), UniqueText) == ["1. " + "Keyword: test, 10 results"]
  {
    var e := Entry("keyword", [("keyword", Str("test"))], 10);
    UniqueTextExample();
    ListingOne(e, UniqueText);
  }
}
