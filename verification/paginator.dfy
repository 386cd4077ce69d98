/**
 * `paginate_results`: a console pager over a fixed list of search results.
 * A page cursor moves over the pages in response to the commands n, p, g <k> and q;
 * each page is shown as a table whose rows carry global 1-based numbers.
 */
module Paginator {
  import opened Wrappers
  import opened Text
  import opened Records

  const DefaultPageSize: nat := 10
  const DefaultColumns: seq<string> := ["#", "Title", "Release Year", "Rating"]
  /** Shown in place of a field the result row does not have. */
  const Missing: string := "N/A"

  /** `page * page_size`: the index of the first result on page `page`. */
  function PageStart(page: nat, pageSize: nat): nat {
    page * pageSize
  }

  lemma PageStartStep(c: nat, p: nat)
    ensures PageStart(c + 1, p) == PageStart(c, p) + p
  {
  }

  lemma {:induction false} PageStartMonotonic(a: nat, b: nat, p: nat)
    requires a <= b
    ensures PageStart(a, p) <= PageStart(b, p)
    decreases b - a
  {
    if a < b {
      PageStartMonotonic(a + 1, b, p);
      PageStartStep(a, p);
    }
  }

  /** Floor division by the page size: `x` lies within page `x / p`. */
  lemma OnItsPage(x: nat, p: nat)
    requires p >= 1
    ensures PageStart(x / p, p) <= x < PageStart(x / p, p) + p
  {
    assert x == (x / p) * p + x % p;
  }

  /** `(n + page_size - 1) // page_size`: the least number of pages of `pageSize` rows holding `n` rows. */
  function PageCount(n: nat, pageSize: nat): (total: nat)
    requires pageSize >= 1
    ensures n <= PageStart(total, pageSize)
    ensures total == 0 || PageStart(total - 1, pageSize) < n
    ensures total == 0 <==> n == 0
  {
    var q := (n + pageSize - 1) / pageSize;
    OnItsPage(n + pageSize - 1, pageSize);
    PageStartStep(if q > 0 then q - 1 else 0, pageSize);
    q
  }

  /**
   * Result `k` lies on page `k / pageSize` and on no other page: the pages
   * partition the results.
   */
  lemma ResultOnExactlyOnePage(n: nat, pageSize: nat, k: nat, c: nat)
    requires pageSize >= 1 && k < n && c < PageCount(n, pageSize)
    ensures k / pageSize < PageCount(n, pageSize)
    ensures PageStart(c, pageSize) <= k < PageStart(c, pageSize) + pageSize <==> c == k / pageSize
  {
    var total := PageCount(n, pageSize);
    var q := k / pageSize;
    OnItsPage(k, pageSize);
    if q >= total {
      PageStartMonotonic(total, q, pageSize);
      assert false;
    }
    if PageStart(c, pageSize) <= k < PageStart(c, pageSize) + pageSize {
      if c < q {
        PageStartMonotonic(c + 1, q, pageSize);
        PageStartStep(c, pageSize);
        assert false;
      } else if c > q {
        PageStartMonotonic(q + 1, c, pageSize);
        PageStartStep(q, pageSize);
        assert false;
      }
    }
  }

  /** A command line after `.strip().lower()`, classified as `paginate_results` does. */
  datatype Command =
    | Next
    | Prev
    | GoTo(page: Option<int>)  // `g <k>`; None when `int(k)` raises ValueError
    | Quit
    | Unknown

  /** The command a stripped, lower-cased console line stands for; `g` reads only the second word. */
  function CommandOf(c: string): Command
    requires IsStripped(c)
  {
    if c == "n" then Next
    else if c == "p" then Prev
    else if |c| >= 2 && c[0] == 'g' && c[1] == ' ' then
      StrippedGotoHasSecondWord(c);
      GoTo(ParseInt(Words(c)[1]))
    else if c == "q" then Quit
    else Unknown
  }

  /** `input(...).strip().lower()` read as a command. */
  function ParseCommand(raw: string): Command {
    LowerIdempotent(Strip(raw));
    CommandOf(Lower(Strip(raw)))
  }

  /** Commands are read case-insensitively and without surrounding whitespace. */
  lemma CommandIgnoresCaseAndPadding(raw: string)
    ensures ParseCommand(raw) == ParseCommand(Lower(Strip(raw)))
  {
    var c := Lower(Strip(raw));
    LowerIdempotent(Strip(raw));
    StripOfStripped(c);
    LowerIdempotent(c);
    assert Lower(Strip(c)) == c;
  }

  /**
   * `g <word>`, alone or followed by more words, asks for the page numbered by that word, read
   * with `int()`; whatever follows the word is ignored.
   */
  lemma GoToReadsItsNumber(raw: string, w: string, rest: string)
    requires Lower(Strip(raw)) == "g " + w + rest
    requires IsWord(w) && (rest == [] || IsSpace(rest[0]))
    ensures ParseCommand(raw) == GoTo(ParseInt(w))
  {
    var c := Lower(Strip(raw));
    LowerIdempotent(Strip(raw));
    assert c == "g" + (" " + (w + rest));
    assert c[0] == 'g' && c[1] == ' ' && |c| >= 3;
    assert c != "n" && c != "p" by { assert |c| != 1; }
    var ws := ["g"] + ([w] + Words(rest));
    assert ws[1] == w;
    GotoWords(w, rest);
    assert Words(c) == ws;
    assert CommandOf(c) == GoTo(ParseInt(w));
  }

  /**
   * A page number longer than `int()`'s digit limit raises ValueError like any token that is not
   * a number, so the pager asks for a valid page number and stays where it is.
   */
  lemma GoToOverDigitLimit(page: nat, total: nat, w: string)
    requires page < total
    requires IsDigits(w) && |w| > MaxStrDigits
    ensures Step(page, total, GoTo(ParseInt(w))) == Move(page, Some(PageNumberExpected), false)
  {
    assert !IsDigit(w[0]) ==> false;
  }

  /** The notices the pager prints; none of them moves the cursor. */
  datatype Notice =
    | AlreadyOnLastPage
    | AlreadyOnFirstPage
    | InvalidPageNumber
    | PageNumberExpected
    | InvalidCommand

  function NoticeText(n: Notice): string {
    match n
    case AlreadyOnLastPage => "✅ Already on the last page."
    case AlreadyOnFirstPage => "✅ Already on the first page."
    case InvalidPageNumber => "⚠️ Invalid page number."
    case PageNumberExpected => "⚠️ Please enter a valid page number after 'g'."
    case InvalidCommand => "⚠️ Invalid command."
  }

  const NoDataText: string := "⚠️ No data to display."

  /** What one command does: the next cursor position, the notice printed, and whether the loop ends. */
  datatype Move = Move(page: nat, notice: Option<Notice>, quit: bool)

  /** One turn of the command loop on a cursor `page` of `total` pages (its rules are `StepRules`). */
  function Step(page: nat, total: nat, cmd: Command): (m: Move)
    requires page < total
    ensures m.page < total
    ensures m.quit ==> m.page == page
  {
    match cmd
    case Next =>
      if page + 1 < total then Move(page + 1, None, false) else Move(page, Some(AlreadyOnLastPage), false)
    case Prev =>
      if page > 0 then Move(page - 1, None, false) else Move(page, Some(AlreadyOnFirstPage), false)
    case GoTo(k) =>
      if k.None? then Move(page, Some(PageNumberExpected), false)
      else
        var target := k.value - 1;
        if 0 <= target < total then Move(target, None, false) else Move(page, Some(InvalidPageNumber), false)
    case Quit => Move(page, None, true)
    case Unknown => Move(page, Some(InvalidCommand), false)
  }
  /**
   * What each command does: q is the only way out and changes nothing; n and p move by one when
   * there is a page to move to; g k lands on page k (1-based) when 1 <= k <= total; every other
   * case leaves the cursor where it is and prints the notice that names the reason.
   */
  lemma StepRules(page: nat, total: nat, cmd: Command)
    requires page < total
    ensures var m := Step(page, total, cmd);
      && (m.quit <==> cmd.Quit?)
      && (m.quit ==> m.notice.None?)
      && (cmd.Next? ==> (m.page == page + 1 <==> page + 1 < total))
      && (cmd.Prev? ==> (m.page + 1 == page <==> 0 < page))
      && (cmd.GoTo? && cmd.page.Some? && 1 <= cmd.page.value <= total ==> m.page == cmd.page.value - 1 && m.notice.None?)
      && (m.notice.Some? ==> m.page == page)
      && (m.notice == Some(AlreadyOnLastPage) <==> cmd.Next? && page + 1 == total)
      && (m.notice == Some(AlreadyOnFirstPage) <==> cmd.Prev? && page == 0)
      && (m.notice == Some(PageNumberExpected) <==> cmd.GoTo? && cmd.page.None?)
      && (m.notice == Some(InvalidPageNumber) <==> cmd.GoTo? && cmd.page.Some? && !(1 <= cmd.page.value <= total))
      && (m.notice == Some(InvalidCommand) <==> cmd.Unknown?)
  {
  }


  /** One table row: the global row number, then title, release year and rating as the table shows them. */
  datatype Row = Row(number: nat, title: string, releaseYear: string, rating: string)

  /** `movie.get(key, "N/A")` as a cell: "N/A" for a missing key, and `str` of a stored value, `None` included. */
  function Cell(field: Option<Value>): string {
    match field
    case None => Missing
    case Some(v) => Show(v)
  }

  /** A missing key shows "N/A", while a key stored with the value None shows "None". */
  lemma CellOfMissingAndNone()
    ensures Cell(None) == "N/A" && Cell(Some(Null)) == "None"
    ensures Cell(None) != Cell(Some(Null))
  {
  }

  function RowFor(number: nat, movie: Movie): Row {
    Row(number, Cell(movie.title), Cell(movie.releaseYear), Cell(movie.rating))
  }

  function Min(a: int, b: int): int {
    if a <= b then a else b
  }

  /** `results[start:start + page_size]` with Python's clamping of slice bounds. */
  function PageSlice(results: seq<Movie>, pageSize: nat, page: nat): (slice: seq<Movie>)
    ensures PageStart(page, pageSize) <= |results| ==> |slice| == Min(pageSize, |results| - PageStart(page, pageSize))
    ensures PageStart(page, pageSize) >= |results| ==> slice == []
    ensures forall i :: 0 <= i < |slice| ==> slice[i] == results[PageStart(page, pageSize) + i]
  {
    var start := PageStart(page, pageSize);
    results[Min(start, |results|)..Min(start + pageSize, |results|)]
  }

  /** The rows of page `page`: the page's slice of results, numbered from `1 + PageStart(page, pageSize)`. */
  function PageTable(results: seq<Movie>, pageSize: nat, page: nat): (rows: seq<Row>)
    ensures |rows| == |PageSlice(results, pageSize, page)|
    ensures forall i :: 0 <= i < |rows| ==>
      var k := PageStart(page, pageSize) + i;
      k < |results| && rows[i] == RowFor(k + 1, results[k])
  {
    var slice := PageSlice(results, pageSize, page);
    seq(|slice|, i requires 0 <= i < |slice| => RowFor(PageStart(page, pageSize) + 1 + i, slice[i]))
  }

  /** Every result has its row, numbered with its 1-based position, on page `k / pageSize`. */
  lemma RowNumberIsGlobalPosition(results: seq<Movie>, pageSize: nat, k: nat)
    requires pageSize >= 1 && k < |results|
    ensures var c := k / pageSize;
      c < PageCount(|results|, pageSize) && 0 <= k - PageStart(c, pageSize) < |PageTable(results, pageSize, c)| &&
      PageTable(results, pageSize, c)[k - PageStart(c, pageSize)] == RowFor(k + 1, results[k])
  {
    var c := k / pageSize;
    ResultOnExactlyOnePage(|results|, pageSize, k, c);
  }

  /** The rows of one page, appended one by one as `paginate_results` adds them to its table. */
  method PageRows(results: seq<Movie>, pageSize: nat, page: nat) returns (rows: seq<Row>)
    ensures rows == PageTable(results, pageSize, page)
  {
    var start := PageStart(page, pageSize);
    var pageResults := PageSlice(results, pageSize, page);
    rows := [];
    for k := 0 to |pageResults|
      invariant |rows| == k
      invariant forall i :: 0 <= i < k ==> rows[i] == RowFor(start + 1 + i, pageResults[i])
    {
      rows := rows + [RowFor(start + 1 + k, pageResults[k])];
    }
  }

  /** The line printed above each table. */
  function Header(found: nat, page: nat, total: nat): string {
    "\n=== Found " + NatToString(found) + " movies | Page " + NatToString(page + 1) + " of " + NatToString(total) + " ==="
  }

  /** `columns or [...]`: the caller's headings, or the default ones when none (or an empty list) are given. */
  function TableColumns(columns: seq<string>): (r: seq<string>)
    ensures r != []
    ensures columns != [] ==> r == columns
  {
    if columns == [] then DefaultColumns else columns
  }

  /** What is printed for one page: the header line and the table. */
  datatype Screen = Screen(header: string, columns: seq<string>, rows: seq<Row>)

  function ScreenFor(results: seq<Movie>, pageSize: nat, columns: seq<string>, page: nat, total: nat): Screen {
    Screen(Header(|results|, page, total), TableColumns(columns), PageTable(results, pageSize, page))
  }

  /** How the pager ended: nothing to show, the user quit, or the console ran out of input (EOFError). */
  datatype Exit = NoData | Quitted | EndOfInput

  /**
   * What a run of the command loop prints, page by page: the cursor positions shown (one table each),
   * the notice (if any) printed by each command that did not quit, and how the loop ended.
   */
  datatype Transcript = Transcript(pages: seq<nat>, notices: seq<Option<Notice>>, exit: Exit)

  /** The commands the console lines `input` are read as, one per line. */
  function Commands(input: seq<string>): (cmds: seq<Command>)
    ensures |cmds| == |input|
    ensures forall k :: 0 <= k < |input| ==> cmds[k] == ParseCommand(input[k])
  {
    seq(|input|, k requires 0 <= k < |input| => ParseCommand(input[k]))
  }

  /** The command loop started on cursor `page`, obeying the commands `cmds` one by one. */
  function Session(page: nat, total: nat, cmds: seq<Command>): Transcript
    requires page < total
    decreases |cmds|
  {
    if cmds == [] then Transcript([page], [], EndOfInput)
    else
      var m := Step(page, total, cmds[0]);
      if m.quit then Transcript([page], [], Quitted)
      else
        var rest := Session(m.page, total, cmds[1..]);
        Transcript([page] + rest.pages, [m.notice] + rest.notices, rest.exit)
  }

  /** The k-th command took the pager from the k-th shown page to the next one, printing the k-th notice. */
  predicate StepShown(t: Transcript, total: nat, cmds: seq<Command>, k: nat)
  {
    && k < |t.notices| && k + 1 < |t.pages| && k < |cmds| && t.pages[k] < total
    && Step(t.pages[k], total, cmds[k]) == Move(t.pages[k + 1], t.notices[k], false)
  }

  /**
   * A session shows its first page, keeps every cursor in [0, total), moves from each shown page
   * to the next by one Step on the next command, and ends at the first q or when the commands run out.
   */
  lemma {:induction false} SessionInvariants(page: nat, total: nat, cmds: seq<Command>)
    requires page < total
    decreases |cmds|
    ensures var t := Session(page, total, cmds);
      && |t.pages| >= 1 && t.pages[0] == page && |t.notices| == |t.pages| - 1
      && t.exit != NoData
      && (forall k :: 0 <= k < |t.pages| ==> t.pages[k] < total)
      && (forall k :: 0 <= k < |t.notices| ==> StepShown(t, total, cmds, k))
      && (t.exit == Quitted ==> |t.pages| <= |cmds| && cmds[|t.pages| - 1] == Quit)
      && (t.exit == EndOfInput ==> |t.pages| == |cmds| + 1)
  {
    if cmds != [] {
      var m := Step(page, total, cmds[0]);
      if !m.quit {
        SessionInvariants(m.page, total, cmds[1..]);
        var rest := Session(m.page, total, cmds[1..]);
        var t := Session(page, total, cmds);
        assert t.pages == [page] + rest.pages && t.notices == [m.notice] + rest.notices;
        forall k | 0 <= k < |t.notices|
          ensures StepShown(t, total, cmds, k)
        {
          if k > 0 {
            assert StepShown(rest, total, cmds[1..], k - 1);
            assert t.pages[k] == rest.pages[k - 1] && t.pages[k + 1] == rest.pages[k];
            assert t.notices[k] == rest.notices[k - 1] && cmds[k] == cmds[1..][k - 1];
          }
        }
        if t.exit == Quitted {
          assert |t.pages| - 1 == |rest.pages|;
          assert cmds[|rest.pages|] == cmds[1..][|rest.pages| - 1];
        }
      } else {
        StepRules(page, total, cmds[0]);
      }
    }
  }

  /** The pages and notices printed so far, followed by the session from cursor `page` on the commands from `i`, make up `whole`. */
  ghost predicate SessionSoFar(whole: Transcript, total: nat, cmds: seq<Command>, i: nat, page: nat, pages: seq<nat>, notices: seq<Option<Notice>>)
  {
    && i <= |cmds| && page < total
    && var rest := Session(page, total, cmds[i..]);
       whole == Transcript(pages + rest.pages, notices + rest.notices, rest.exit)
  }

  /** The session starts on the first page with nothing printed yet. */
  lemma SessionStarts(total: nat, cmds: seq<Command>)
    requires 0 < total
    ensures SessionSoFar(Session(0, total, cmds), total, cmds, 0, 0, [], [])
  {
    var rest := Session(0, total, cmds[0..]);
    assert cmds[0..] == cmds;
    assert [] + rest.pages == rest.pages && [] + rest.notices == rest.notices;
  }

  /** When the commands run out, the page on screen is the last one of the session. */
  lemma SessionEnds(whole: Transcript, total: nat, cmds: seq<Command>, i: nat, page: nat, pages: seq<nat>, notices: seq<Option<Notice>>)
    requires SessionSoFar(whole, total, cmds, i, page, pages, notices) && i == |cmds|
    ensures whole == Transcript(pages + [page], notices, EndOfInput)
  {
    assert cmds[i..] == [];
    assert notices + [] == notices;
  }

  /** Obeying command `i` either ends the session on the page on screen or moves on to the next turn. */
  lemma SessionAdvances(whole: Transcript, total: nat, cmds: seq<Command>, i: nat, page: nat, pages: seq<nat>, notices: seq<Option<Notice>>)
    requires SessionSoFar(whole, total, cmds, i, page, pages, notices) && i < |cmds|
    ensures var m := Step(page, total, cmds[i]);
      && (m.quit ==> whole == Transcript(pages + [page], notices, Quitted))
      && (!m.quit ==> SessionSoFar(whole, total, cmds, i + 1, m.page, pages + [page], notices + [m.notice]))
  {
    var m := Step(page, total, cmds[i]);
    assert cmds[i..][0] == cmds[i] && cmds[i..][1..] == cmds[i + 1..];
    var rest := Session(page, total, cmds[i..]);
    if m.quit {
      assert notices + rest.notices == notices;
    } else {
      var next := Session(m.page, total, cmds[i + 1..]);
      assert pages + rest.pages == (pages + [page]) + next.pages;
      assert notices + rest.notices == (notices + [m.notice]) + next.notices;
    }
  }

  /** The screens printed for the cursor positions `pages`, one each. */
  function ScreensFor(results: seq<Movie>, pageSize: nat, columns: seq<string>, pages: seq<nat>, total: nat): (screens: seq<Screen>)
    ensures |screens| == |pages|
    ensures forall k :: 0 <= k < |pages| ==> screens[k] == ScreenFor(results, pageSize, columns, pages[k], total)
  {
    seq(|pages|, k requires 0 <= k < |pages| => ScreenFor(results, pageSize, columns, pages[k], total))
  }

  lemma ScreensForAppend(results: seq<Movie>, pageSize: nat, columns: seq<string>, pages: seq<nat>, total: nat, page: nat)
    ensures ScreensFor(results, pageSize, columns, pages + [page], total)
      == ScreensFor(results, pageSize, columns, pages, total) + [ScreenFor(results, pageSize, columns, page, total)]
  {
  }

  /** The header and table printed for cursor `page`. */
  method ShowPage(results: seq<Movie>, pageSize: nat, columns: seq<string>, page: nat, total: nat) returns (screen: Screen)
    ensures screen == ScreenFor(results, pageSize, columns, page, total)
  {
    var rows := PageRows(results, pageSize, page);
    screen := Screen(Header(|results|, page, total), TableColumns(columns), rows);
  }

  /**
   * `paginate_results(results, page_size, columns)` reading its commands from `input`:
   * nothing is shown for an empty list; otherwise the loop runs `Session` from the first page,
   * and each cursor position in it is printed as that page's header and table.
   */
  method PaginateResults(results: seq<Movie>, pageSize: nat, columns: seq<string>, input: seq<string>)
    returns (pages: seq<nat>, screens: seq<Screen>, notices: seq<Option<Notice>>, exit: Exit)
    requires pageSize >= 1
    ensures exit == NoData <==> results == []
    ensures exit == NoData ==> pages == [] && screens == [] && notices == []
    ensures exit != NoData ==>
      && Transcript(pages, notices, exit) == Session(0, PageCount(|results|, pageSize), Commands(input))
      && screens == ScreensFor(results, pageSize, columns, pages, PageCount(|results|, pageSize))
  {
    var total := PageCount(|results|, pageSize);
    if total == 0 {
      return [], [], [], NoData;
    }
    ghost var cmds := Commands(input);
    ghost var whole := Session(0, total, cmds);
    var page: nat := 0;
    var i := 0;
    pages, screens, notices := [], [], [];
    SessionStarts(total, cmds);
    while true
      invariant 0 <= i <= |input| && page < total
      invariant screens == ScreensFor(results, pageSize, columns, pages, total)
      invariant SessionSoFar(whole, total, cmds, i, page, pages, notices)
      decreases |input| - i
    {
      var screen := ShowPage(results, pageSize, columns, page, total);
      if i == |input| {
        SessionEnds(whole, total, cmds, i, page, pages, notices);
        ScreensForAppend(results, pageSize, columns, pages, total, page);
        pages, screens := pages + [page], screens + [screen];
        exit := EndOfInput;
        return;
      }
      var move := Step(page, total, ParseCommand(input[i]));
      SessionAdvances(whole, total, cmds, i, page, pages, notices);
      ScreensForAppend(results, pageSize, columns, pages, total, page);
      pages, screens := pages + [page], screens + [screen];
      if move.quit {
        exit := Quitted;
        return;
      }
      notices := notices + [move.notice];
      page := move.page;
      i := i + 1;
    }
  }

  /** Fifteen results, five per page: `n` from the first page shows "Page 2 of 3". */
  lemma NextOnFifteenResultsShowsPageTwoOfThree()
    ensures PageCount(15, 5) == 3
    ensures Header(15, Step(0, 3, Next).page, 3) == "\n=== Found 15 movies | Page 2 of 3 ==="
  {
  }

  /** On the first of three pages, `g 2` shows page 2, while `g 999`, `g x`, an unknown word and `p` are refused. */
  lemma GoToExamples()
    ensures Step(0, 3, GoTo(Some(2))) == Move(1, None, false)
    ensures Step(0, 3, GoTo(Some(999))) == Move(0, Some(InvalidPageNumber), false)
    ensures Step(0, 3, GoTo(None)) == Move(0, Some(PageNumberExpected), false)
    ensures Step(0, 3, Unknown) == Move(0, Some(InvalidCommand), false)
    ensures Step(0, 3, Prev) == Move(0, Some(AlreadyOnFirstPage), false)
  {
  }
}
