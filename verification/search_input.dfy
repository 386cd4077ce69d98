/**
 * The console input of the search workflows (`all_searches.py`, both revisions): the MPAA
 * rating tables, the checks that accept or refuse one answer of the user, and the retry
 * loops that keep asking until an answer is accepted. Every answer is first stripped, as
 * `input(prompt).strip()` does.
 */
module SearchInput {
  import opened Wrappers
  import opened Text
  import opened Records
  import QueryBuilder

  // ---------------------------------------------------------------------------------------
  // Ratings

  /** `available_ratings` of the current revision: MPAA code and description, in dictionary order. */
  const Ratings: seq<(string, string)> := [
    ("G", "👶 General Audiences – All ages admitted"),
    ("PG", "👪 Parental Guidance Suggested"),
    ("PG-13", "⚠️ Parents Strongly Cautioned"),
    ("R", "🔞 Restricted – Under 17 requires accompanying parent or adult guardian"),
    ("NC-17", "🚫 Adults Only – No one 17 and under admitted")
  ]

  /** `available_ratings` of the older revision. */
  const LegacyRatings: seq<(string, string)> := [
    ("G", "General Audiences – All ages admitted"),
    ("PG", "Parental Guidance Suggested"),
    ("PG-13", "Parents Strongly Cautioned"),
    ("R", "Restricted"),
    ("NC-17", "Adults Only")
  ]

  /** Both revisions list exactly the five MPAA codes, in the order G, PG, PG-13, R, NC-17. */
  lemma RatingCodesInOrder()
    ensures Keys(Ratings) == ["G", "PG", "PG-13", "R", "NC-17"]
    ensures Keys(LegacyRatings) == Keys(Ratings)
  {
  }

  /** `f"{idx}. {code} - {desc}"` for each rating, numbered from 1 (older revision's menu). */
  function RatingMenu(table: seq<(string, string)>): (lines: seq<string>)
    ensures |lines| == |table|
    ensures forall i :: 0 <= i < |table| ==>
      lines[i] == NatToString(i + 1) + ". " + table[i].0 + " - " + table[i].1
  {
    seq(|table|, i requires 0 <= i < |table| => NatToString(i + 1) + ". " + table[i].0 + " - " + table[i].1)
  }

  // ---------------------------------------------------------------------------------------
  // One answer, and the loop that asks until one is accepted

  /**
   * An exception raised while an answer is checked: `int()` given a digit string over its digit
   * limit (ValueError), or `<=` with None on one side (TypeError). `ErrorText` is its message.
   */
  datatype PyError = IntLimitExceeded(digits: nat) | NoneCompared(left: string, right: string)

  function ErrorText(e: PyError): string {
    match e
    case IntLimitExceeded(digits) => IntLimitError(digits)
    case NoneCompared(left, right) => CompareError(left, right)
  }

  /** What a check makes of one answer: take it, refuse it with a printed notice, or raise. */
  datatype Answer<T> = Accept(value: T) | Reject(notice: string) | Fail(error: PyError)

  /** How a retry loop ends: with a value, with the console out of input (EOFError), or with an exception. */
  datatype Outcome<T> = Chosen(value: T) | InputEnded | Raised(error: PyError)

  /**
   * `while True: answer = input(...); if ok: return ...; print(notice)`, as a value: the notices of
   * the refused attempts, in order, and how the loop ends. The loop stops at the first attempt
   * that is accepted or raises, and meets the end of input when every attempt is refused.
   */
  function RetryOf<A, T>(check: A -> Answer<T>, attempts: seq<A>): (r: (Outcome<T>, seq<string>))
    ensures |r.1| <= |attempts|
    ensures forall k :: 0 <= k < |r.1| ==> check(attempts[k]) == Reject(r.1[k])
    ensures r.0.InputEnded? <==> |r.1| == |attempts|
    ensures r.0.Chosen? ==> check(attempts[|r.1|]) == Accept(r.0.value)
    ensures r.0.Raised? ==> check(attempts[|r.1|]) == Fail(r.0.error)
    decreases |attempts|
  {
    if attempts == [] then (InputEnded, [])
    else
      match check(attempts[0])
      case Accept(v) => (Chosen(v), [])
      case Fail(e) => (Raised(e), [])
      case Reject(n) =>
        var more := RetryOf(check, attempts[1..]);
        (more.0, [n] + more.1)
  }

  /**
   * When the first `j` attempts are refused and attempt `j` is not, the loop prints exactly the
   * notices of those `j` attempts and ends with attempt `j`'s value or exception.
   */
  lemma RetryOfFirstTaken<A, T>(check: A -> Answer<T>, attempts: seq<A>, j: nat)
    requires j < |attempts| && !check(attempts[j]).Reject?
    requires forall i :: 0 <= i < j ==> check(attempts[i]).Reject?
    ensures |RetryOf(check, attempts).1| == j
    ensures forall i :: 0 <= i < j ==> RetryOf(check, attempts).1[i] == check(attempts[i]).notice
    ensures check(attempts[j]).Accept? ==> RetryOf(check, attempts).0 == Chosen(check(attempts[j]).value)
    ensures check(attempts[j]).Fail? ==> RetryOf(check, attempts).0 == Raised(check(attempts[j]).error)
  {
  }

  /** When every attempt is refused, the loop prints every notice and meets the end of input. */
  lemma RetryOfAllRefused<A, T>(check: A -> Answer<T>, attempts: seq<A>)
    requires forall i :: 0 <= i < |attempts| ==> check(attempts[i]).Reject?
    ensures RetryOf(check, attempts).0 == InputEnded
    ensures |RetryOf(check, attempts).1| == |attempts|
  {
  }

  /** `RetryOf` after `done` refused attempts whose notices were `notices`. */
  function Resumed<T>(notices: seq<string>, r: (Outcome<T>, seq<string>)): (Outcome<T>, seq<string>) {
    (r.0, notices + r.1)
  }

  /** The retry loop itself. */
  method Retry<A, T>(check: A -> Answer<T>, attempts: seq<A>) returns (outcome: Outcome<T>, notices: seq<string>)
    ensures (outcome, notices) == RetryOf(check, attempts)
  {
    notices := [];
    var i := 0;
    assert attempts[0..] == attempts && [] + RetryOf(check, attempts).1 == RetryOf(check, attempts).1;
    while i < |attempts|
      invariant i <= |attempts| && |notices| == i
      invariant RetryOf(check, attempts) == Resumed(notices, RetryOf(check, attempts[i..]))
    {
      assert attempts[i..][0] == attempts[i] && notices + [] == notices;
      match check(attempts[i])
      case Accept(v) =>
        return Chosen(v), notices;
      case Fail(e) =>
        return Raised(e), notices;
      case Reject(n) =>
        RetryOfStep(check, attempts, i, notices, n);
        notices := notices + [n];
        i := i + 1;
    }
    assert attempts[i..] == [] && notices + [] == notices;
    outcome := InputEnded;
  }

  lemma RetryOfStep<A, T>(check: A -> Answer<T>, attempts: seq<A>, i: nat, notices: seq<string>, n: string)
    requires i < |attempts| && check(attempts[i]) == Reject(n)
    ensures Resumed(notices, RetryOf(check, attempts[i..])) == Resumed(notices + [n], RetryOf(check, attempts[i + 1..]))
  {
    assert attempts[i..][0] == attempts[i] && attempts[i..][1..] == attempts[i + 1..];
    var more := RetryOf(check, attempts[i + 1..]);
    assert RetryOf(check, attempts[i..]) == (more.0, [n] + more.1);
    assert notices + ([n] + more.1) == (notices + [n]) + more.1;
  }

  // ---------------------------------------------------------------------------------------
  // Genre choice

  /** What the genre table records for a genre: its release-year bounds (None when unknown) and its name. */
  datatype GenreInfo = GenreInfo(minYear: Option<int>, maxYear: Option<int>, name: string)

  /** `genre_data`: a dictionary from genre id to its info, in insertion order. */
  type GenreData = seq<(int, GenreInfo)>

  /** `genre_data[id] = info`: replace the value in place when the key is present, append it otherwise. */
  function Put(data: GenreData, id: int, info: GenreInfo): GenreData {
    if data == [] then [(id, info)]
    else if data[0].0 == id then [(id, info)] + data[1..]
    else [data[0]] + Put(data[1..], id, info)
  }

  /** A stored value is read back and every other key reads as before. */
  lemma {:induction false} GetPut(data: GenreData, id: int, info: GenreInfo, other: int)
    ensures Get(Put(data, id, info), id) == Some(info)
    ensures other != id ==> Get(Put(data, id, info), other) == Get(data, other)
  {
    if data != [] && data[0].0 != id {
      GetPut(data[1..], id, info, other);
    }
  }

  /**
   * Put keeps every key at its position and adds a new key at the end only when it was absent,
   * so a dictionary with distinct keys keeps them distinct.
   */
  lemma {:induction false} PutKeepsKeys(data: GenreData, id: int, info: GenreInfo)
    ensures |Put(data, id, info)| == if Get(data, id).Some? then |data| else |data| + 1
    ensures forall k :: 0 <= k < |data| ==> Put(data, id, info)[k].0 == data[k].0
    ensures Get(data, id).None? ==> Put(data, id, info)[|data|] == (id, info)
    ensures DistinctKeys(data) ==> DistinctKeys(Put(data, id, info))
  {
    if data != [] && data[0].0 != id {
      PutKeepsKeys(data[1..], id, info);
      assert Get(data, id) == Get(data[1..], id);
    }
  }

  /** `', '.join(map(str, ids))`. */
  function JoinIds(ids: seq<int>): string {
    if ids == [] then ""
    else if |ids| == 1 then IntToString(ids[0])
    else IntToString(ids[0]) + ", " + JoinIds(ids[1..])
  }

  function InvalidGenreNotice(data: GenreData): string {
    "Invalid genre ID. Please enter one of: " + JoinIds(Keys(data))
  }

  /** `select_genre`'s result: the id with its year bounds and name. */
  datatype GenreChoice = GenreChoice(id: int, minYear: Option<int>, maxYear: Option<int>, name: string)

  /**
   * One answer to "Enter genre ID: ": all digits, then `int()` (which raises past its digit
   * limit), then a key of `genre_data`.
   */
  function GenreAnswer(data: GenreData, line: string): Answer<GenreChoice> {
    var s := Strip(line);
    if !IsDigits(s) then Reject(InvalidGenreNotice(data))
    else
      match IntOfDigits(s)
      case None => Fail(IntLimitExceeded(|s|))
      case Some(id) =>
        match Get(data, id)
        case Some(info) => Accept(GenreChoice(id, info.minYear, info.maxYear, info.name))
        case None => Reject(InvalidGenreNotice(data))
  }

  /** The check the genre loop applies to each answer. */
  function GenreCheck(data: GenreData): string -> Answer<GenreChoice> {
    line => GenreAnswer(data, line)
  }

  /**
   * A genre answer is accepted exactly when the stripped answer is a digit string within the
   * digit limit naming a key, and then the choice carries that key's stored bounds and name. It
   * raises exactly when it is a digit string over the limit; anything else is refused with the
   * list of valid ids.
   */
  lemma GenreAnswerChoosesAKey(data: GenreData, line: string)
    ensures GenreAnswer(data, line).Fail? <==> IsDigits(Strip(line)) && |Strip(line)| > MaxStrDigits
    ensures GenreAnswer(data, line).Fail? ==> GenreAnswer(data, line).error == IntLimitExceeded(|Strip(line)|)
    ensures GenreAnswer(data, line).Accept? <==>
      IsDigits(Strip(line)) && |Strip(line)| <= MaxStrDigits && Get(data, DigitsValue(Strip(line))).Some?
    ensures GenreAnswer(data, line).Accept? ==>
      var c := GenreAnswer(data, line).value;
      && c.id == DigitsValue(Strip(line))
      && Get(data, c.id) == Some(GenreInfo(c.minYear, c.maxYear, c.name))
      && (c.id, GenreInfo(c.minYear, c.maxYear, c.name)) in data && c.id >= 0
    ensures GenreAnswer(data, line).Reject? ==> GenreAnswer(data, line).notice == InvalidGenreNotice(data)
  {
    var s := Strip(line);
    if IsDigits(s) && |s| <= MaxStrDigits {
      assert IntOfDigits(s) == Some(DigitsValue(s));
    }
  }

  /** Typing a listed (non-negative) id in decimal always selects that genre. */
  lemma ListedIdIsAccepted(data: GenreData, id: nat)
    requires Get(data, id).Some? && |NatToString(id)| <= MaxStrDigits
    ensures GenreAnswer(data, NatToString(id)).Accept?
    ensures GenreAnswer(data, NatToString(id)).value.id == id
  {
    var s := NatToString(id);
    NatToStringRoundTrip(id);
    assert IsStripped(s) by { assert IsDigit(s[0]) && IsDigit(s[|s| - 1]); }
    StripOfStripped(s);
    GenreAnswerChoosesAKey(data, s);
  }

  /** `select_genre`'s loop over the answers `lines`. */
  method SelectGenre(data: GenreData, lines: seq<string>) returns (outcome: Outcome<GenreChoice>, notices: seq<string>)
    ensures (outcome, notices) == RetryOf(GenreCheck(data), lines)
    ensures forall k :: 0 <= k < |notices| ==> notices[k] == InvalidGenreNotice(data) && GenreAnswer(data, lines[k]).Reject?
    ensures outcome.Chosen? ==>
      && GenreAnswer(data, lines[|notices|]) == Accept(outcome.value)
      && Get(data, outcome.value.id) == Some(GenreInfo(outcome.value.minYear, outcome.value.maxYear, outcome.value.name))
    ensures outcome.Raised? ==> outcome.error == IntLimitExceeded(|Strip(lines[|notices|])|)
  {
    var check := GenreCheck(data);
    outcome, notices := Retry(check, lines);
    forall k | 0 <= k < |notices|
      ensures notices[k] == InvalidGenreNotice(data) && GenreAnswer(data, lines[k]).Reject?
    {
      assert check(lines[k]) == GenreAnswer(data, lines[k]) == Reject(notices[k]);
      GenreAnswerChoosesAKey(data, lines[k]);
    }
    if !outcome.InputEnded? {
      assert check(lines[|notices|]) == GenreAnswer(data, lines[|notices|]);
      GenreAnswerChoosesAKey(data, lines[|notices|]);
    }
  }

  /** The genre the loop returns is a key of `genre_data`, carrying that key's bounds and name. */
  lemma GenreChosenIsListed(data: GenreData, lines: seq<string>, r: (Outcome<GenreChoice>, seq<string>))
    requires r == RetryOf(GenreCheck(data), lines) && r.0.Chosen?
    ensures Get(data, r.0.value.id) == Some(GenreInfo(r.0.value.minYear, r.0.value.maxYear, r.0.value.name))
  {
    GenreAnswerChoosesAKey(data, lines[|r.1|]);
  }

  // ---------------------------------------------------------------------------------------
  // Year range

  const InvalidYearRange: string := "Invalid year range. Try again."

  const ComparePrefix: string := "'<=' not supported between instances of '"

  /** Python's TypeError for `a <= b` when one side is None. */
  function CompareError(left: string, right: string): string {
    ComparePrefix + left + "' and '" + right + "'"
  }

  /** A four-character answer of ASCII digits. */
  predicate IsYear(s: string) {
    IsDigits(s) && |s| == 4
  }

  /**
   * One pair of answers to `get_year_range(min_year, max_year)`, already stripped: both digits;
   * then `int()` of each, start year first (either raises past the digit limit); then both four
   * long; then `min_year <= year_from <= year_to <= max_year` evaluated left to right. A bound the
   * genre does not have (None) raises TypeError, but only once the comparison reaches it.
   */
  function YearCheck(minYear: Option<int>, maxYear: Option<int>, f: string, t: string): Answer<(int, int)> {
    if !(IsDigits(f) && IsDigits(t)) then Reject(InvalidYearRange)
    else if |f| > MaxStrDigits then Fail(IntLimitExceeded(|f|))
    else if |t| > MaxStrDigits then Fail(IntLimitExceeded(|t|))
    else if !(|f| == 4 && |t| == 4) then Reject(InvalidYearRange)
    else
      var yf, yt := DigitsValue(f), DigitsValue(t);
      if minYear.None? then Fail(NoneCompared("NoneType", "int"))
      else if !(minYear.value <= yf) || !(yf <= yt) then Reject(InvalidYearRange)
      else if maxYear.None? then Fail(NoneCompared("int", "NoneType"))
      else if yt <= maxYear.value then Accept((yf, yt))
      else Reject(InvalidYearRange)
  }

  /** The pair of answers as typed: each is stripped before it is checked. */
  function YearAnswer(minYear: Option<int>, maxYear: Option<int>, fromLine: string, toLine: string): Answer<(int, int)> {
    YearCheck(minYear, maxYear, Strip(fromLine), Strip(toLine))
  }

  /** The check the year loop applies to each pair of answers. */
  function YearsCheck(minYear: Option<int>, maxYear: Option<int>): ((string, string)) -> Answer<(int, int)> {
    (p: (string, string)) => YearAnswer(minYear, maxYear, p.0, p.1)
  }

  /** Raised while checking a pair: `int()` past its digit limit, or a comparison with a missing bound. */
  predicate YearError(minYear: Option<int>, maxYear: Option<int>, f: string, t: string, error: PyError) {
    || (IsDigits(f) && IsDigits(t) && |f| > MaxStrDigits && error == IntLimitExceeded(|f|))
    || (IsDigits(f) && IsDigits(t) && |f| <= MaxStrDigits < |t| && error == IntLimitExceeded(|t|))
    || (IsYear(f) && IsYear(t) && minYear.None? && error == NoneCompared("NoneType", "int"))
    || (IsYear(f) && IsYear(t) && minYear.Some? && maxYear.None? && error == NoneCompared("int", "NoneType"))
  }

  /**
   * A pair is accepted exactly when both answers are four-digit years with
   * `min <= from <= to <= max`; the pair returned is those two years. A pair raises only past the
   * digit limit (the start year is converted first) or on reaching a missing bound; anything else
   * is refused with the same notice.
   */
  lemma YearCheckIffValid(minYear: Option<int>, maxYear: Option<int>, f: string, t: string)
    ensures YearCheck(minYear, maxYear, f, t).Accept? <==>
      && IsYear(f) && IsYear(t) && minYear.Some? && maxYear.Some?
      && minYear.value <= DigitsValue(f) <= DigitsValue(t) <= maxYear.value
    ensures YearCheck(minYear, maxYear, f, t).Accept? ==> YearCheck(minYear, maxYear, f, t).value == (DigitsValue(f), DigitsValue(t))
    ensures YearCheck(minYear, maxYear, f, t).Reject? ==> YearCheck(minYear, maxYear, f, t).notice == InvalidYearRange
    ensures YearCheck(minYear, maxYear, f, t).Fail? ==> YearError(minYear, maxYear, f, t, YearCheck(minYear, maxYear, f, t).error)
    ensures IsDigits(f) && IsDigits(t) && (|f| > MaxStrDigits || |t| > MaxStrDigits) ==> YearCheck(minYear, maxYear, f, t).Fail?
    ensures minYear.Some? && maxYear.Some? && |f| <= MaxStrDigits && |t| <= MaxStrDigits ==> !YearCheck(minYear, maxYear, f, t).Fail?
  {
  }

  /** With a genre spanning 1990-2020, the answers 2000 and 2010 give the range (2000, 2010). */
  lemma YearRangeExample()
    ensures YearCheck(Some(1990), Some(2020), "2000", "2010") == Accept((2000, 2010))
  {
    assert "2000"[..3] == "200" && "200"[..2] == "20" && "20"[..1] == "2" && "2"[..0] == "";
    assert "2010"[..3] == "201" && "201"[..2] == "20";
  }

  /** The answers read two at a time: (start year, end year). */
  function Pairs(lines: seq<string>): (pairs: seq<(string, string)>)
    ensures |pairs| == |lines| / 2
    ensures forall k :: 0 <= k < |pairs| ==> pairs[k] == (lines[2 * k], lines[2 * k + 1])
  {
    seq(|lines| / 2, k requires 0 <= k < |lines| / 2 => (lines[2 * k], lines[2 * k + 1]))
  }

  /**
   * `get_year_range`'s loop: each round reads a start and an end year, and a refused pair is
   * asked for again as a whole. An odd answer left over at the end meets EOF on the second prompt.
   */
  method GetYearRange(minYear: Option<int>, maxYear: Option<int>, lines: seq<string>)
    returns (outcome: Outcome<(int, int)>, notices: seq<string>)
    ensures (outcome, notices) == RetryOf(YearsCheck(minYear, maxYear), Pairs(lines))
  {
    outcome, notices := Retry(YearsCheck(minYear, maxYear), Pairs(lines));
  }

  /** The check applied to the `k`th pair is the check of the `k`th start year and end year. */
  lemma PairVerdict(minYear: Option<int>, maxYear: Option<int>, lines: seq<string>, k: nat)
    requires k < |lines| / 2
    ensures 2 * k + 2 <= |lines|
    ensures YearsCheck(minYear, maxYear)(Pairs(lines)[k]) == YearAnswer(minYear, maxYear, lines[2 * k], lines[2 * k + 1])
  {
    assert Pairs(lines)[k] == (lines[2 * k], lines[2 * k + 1]);
  }

  /** Every refused round of the year loop printed the one notice for that pair of answers. */
  lemma YearRefusals(minYear: Option<int>, maxYear: Option<int>, lines: seq<string>)
    ensures var r := RetryOf(YearsCheck(minYear, maxYear), Pairs(lines));
      forall k :: 0 <= k < |r.1| ==>
        r.1[k] == InvalidYearRange && YearAnswer(minYear, maxYear, lines[2 * k], lines[2 * k + 1]).Reject?
  {
    var r := RetryOf(YearsCheck(minYear, maxYear), Pairs(lines));
    forall k | 0 <= k < |r.1|
      ensures r.1[k] == InvalidYearRange && YearAnswer(minYear, maxYear, lines[2 * k], lines[2 * k + 1]).Reject?
    {
      PairVerdict(minYear, maxYear, lines, k);
      YearAnswerMeaning(minYear, maxYear, lines[2 * k], lines[2 * k + 1]);
    }
  }

  /** The year loop reads whole pairs, and ends at the end of input exactly when every full pair was refused. */
  lemma YearRangeOutcome(minYear: Option<int>, maxYear: Option<int>, lines: seq<string>, r: (Outcome<(int, int)>, seq<string>))
    requires r == RetryOf(YearsCheck(minYear, maxYear), Pairs(lines))
    ensures 2 * |r.1| <= |lines|
    ensures r.0.InputEnded? <==> |r.1| == |lines| / 2
    ensures !r.0.InputEnded? ==> 2 * |r.1| + 2 <= |lines|
  {
  }

  /** The range the year loop returns lies within both bounds of the genre. */
  lemma YearRangeWithinBounds(minYear: Option<int>, maxYear: Option<int>, lines: seq<string>, r: (Outcome<(int, int)>, seq<string>))
    requires r == RetryOf(YearsCheck(minYear, maxYear), Pairs(lines)) && r.0.Chosen?
    ensures minYear.Some? && maxYear.Some? && minYear.value <= r.0.value.0 <= r.0.value.1 <= maxYear.value
  {
    var p := Pairs(lines)[|r.1|];
    YearAnswerMeaning(minYear, maxYear, p.0, p.1);
  }

  /**
   * When the year loop raises, the pair it stopped at took `int()` past its digit limit or
   * reached a comparison with a missing bound.
   */
  lemma YearRangeRaised(minYear: Option<int>, maxYear: Option<int>, lines: seq<string>, r: (Outcome<(int, int)>, seq<string>))
    requires r == RetryOf(YearsCheck(minYear, maxYear), Pairs(lines)) && r.0.Raised?
    ensures YearError(minYear, maxYear, Strip(Pairs(lines)[|r.1|].0), Strip(Pairs(lines)[|r.1|].1), r.0.error)
  {
    var p := Pairs(lines)[|r.1|];
    YearAnswerMeaning(minYear, maxYear, p.0, p.1);
  }

  /** A pair that raises took `int()` past its digit limit or reached a comparison with a missing bound. */
  lemma YearRaisedMeaning(minYear: Option<int>, maxYear: Option<int>, fromLine: string, toLine: string, error: PyError)
    requires YearAnswer(minYear, maxYear, fromLine, toLine) == Fail(error)
    ensures YearError(minYear, maxYear, Strip(fromLine), Strip(toLine), error)
  {
    YearAnswerMeaning(minYear, maxYear, fromLine, toLine);
  }

  /** What an answer pair's verdict tells about the bounds and the answers. */
  lemma YearAnswerMeaning(minYear: Option<int>, maxYear: Option<int>, fromLine: string, toLine: string)
    ensures YearAnswer(minYear, maxYear, fromLine, toLine).Reject? ==>
      YearAnswer(minYear, maxYear, fromLine, toLine).notice == InvalidYearRange
    ensures YearAnswer(minYear, maxYear, fromLine, toLine).Accept? ==>
      var range := YearAnswer(minYear, maxYear, fromLine, toLine).value;
      minYear.Some? && maxYear.Some? && minYear.value <= range.0 <= range.1 <= maxYear.value
    ensures YearAnswer(minYear, maxYear, fromLine, toLine).Fail? ==>
      YearError(minYear, maxYear, Strip(fromLine), Strip(toLine), YearAnswer(minYear, maxYear, fromLine, toLine).error)
  {
    YearCheckIffValid(minYear, maxYear, Strip(fromLine), Strip(toLine));
  }

  // ---------------------------------------------------------------------------------------
  // Rating choice

  const OnlyNumbers: string := "❌ Only numbers are allowed. Please try again."

  function SelectionRange(count: nat): string {
    "Invalid selection. Please enter a number between 1 and " + NatToString(count) + "."
  }

  /**
   * One answer to "Select a rating by number: " (current revision): digits only, then `int()`
   * (which raises past its digit limit), then a key of `index_to_code`, the numbering the
   * ratings table was displayed with.
   */
  function RatingAnswer(indexToCode: map<int, string>, line: string): Answer<string> {
    var s := Strip(line);
    if !IsDigits(s) then Reject(OnlyNumbers)
    else
      match IntOfDigits(s)
      case None => Fail(IntLimitExceeded(|s|))
      case Some(index) =>
        if index in indexToCode then Accept(indexToCode[index])
        else Reject(SelectionRange(|indexToCode|))
  }

  /** The check the rating loop applies to each answer. */
  function RatingCheck(indexToCode: map<int, string>): string -> Answer<string> {
    line => RatingAnswer(indexToCode, line)
  }

  /**
   * The chosen rating is always a code of `index_to_code`, so the `selected_rating is None`
   * branch after the loop is never taken; non-digits and unknown numbers get different notices,
   * and a digit string past the digit limit raises.
   */
  lemma RatingAnswerPicksACode(indexToCode: map<int, string>, line: string)
    ensures RatingAnswer(indexToCode, line).Fail? <==> IsDigits(Strip(line)) && |Strip(line)| > MaxStrDigits
    ensures RatingAnswer(indexToCode, line).Fail? ==> RatingAnswer(indexToCode, line).error == IntLimitExceeded(|Strip(line)|)
    ensures RatingAnswer(indexToCode, line).Accept? <==>
      IsDigits(Strip(line)) && |Strip(line)| <= MaxStrDigits && DigitsValue(Strip(line)) in indexToCode
    ensures RatingAnswer(indexToCode, line).Accept? ==>
      RatingAnswer(indexToCode, line).value == indexToCode[DigitsValue(Strip(line))]
    ensures RatingAnswer(indexToCode, line).Accept? ==> RatingAnswer(indexToCode, line).value in indexToCode.Values
    ensures RatingAnswer(indexToCode, line) == Reject(OnlyNumbers) <==> !IsDigits(Strip(line))
    ensures RatingAnswer(indexToCode, line).Reject? ==>
      RatingAnswer(indexToCode, line).notice in {OnlyNumbers, SelectionRange(|indexToCode|)}
  {
    var s := Strip(line);
    if IsDigits(s) && |s| <= MaxStrDigits {
      var index := DigitsValue(s);
      assert IntOfDigits(s) == Some(index);
      if index in indexToCode {
        assert indexToCode[index] in indexToCode.Values;
      } else {
        assert |OnlyNumbers| < |SelectionRange(|indexToCode|)|;
      }
    }
  }

  /** The current revision's rating loop. */
  method SelectRating(indexToCode: map<int, string>, lines: seq<string>) returns (outcome: Outcome<string>, notices: seq<string>)
    ensures (outcome, notices) == RetryOf(RatingCheck(indexToCode), lines)
    ensures forall k :: 0 <= k < |notices| ==> RatingAnswer(indexToCode, lines[k]) == Reject(notices[k])
    ensures outcome.Chosen? ==>
      && RatingAnswer(indexToCode, lines[|notices|]) == Accept(outcome.value)
      && outcome.value in indexToCode.Values
    ensures outcome.Raised? ==> outcome.error == IntLimitExceeded(|Strip(lines[|notices|])|)
  {
    var check := RatingCheck(indexToCode);
    outcome, notices := Retry(check, lines);
    forall k | 0 <= k < |notices|
      ensures RatingAnswer(indexToCode, lines[k]) == Reject(notices[k])
    {
      assert check(lines[k]) == RatingAnswer(indexToCode, lines[k]);
    }
    if !outcome.InputEnded? {
      assert check(lines[|notices|]) == RatingAnswer(indexToCode, lines[|notices|]);
      RatingAnswerPicksACode(indexToCode, lines[|notices|]);
    }
  }

  /** The code the loop returns is one of the table's codes. */
  lemma RatingChosenIsListed(indexToCode: map<int, string>, lines: seq<string>, r: (Outcome<string>, seq<string>))
    requires r == RetryOf(RatingCheck(indexToCode), lines) && r.0.Chosen?
    ensures r.0.value in indexToCode.Values
  {
    RatingAnswerPicksACode(indexToCode, lines[|r.1|]);
  }

  /** Every refusal of the loop prints one of its two notices. */
  lemma RatingNoticesListed(indexToCode: map<int, string>, lines: seq<string>, r: (Outcome<string>, seq<string>))
    requires r == RetryOf(RatingCheck(indexToCode), lines)
    ensures forall k :: 0 <= k < |r.1| ==> r.1[k] == OnlyNumbers || r.1[k] == SelectionRange(|indexToCode|)
  {
    forall k | 0 <= k < |r.1|
      ensures r.1[k] == OnlyNumbers || r.1[k] == SelectionRange(|indexToCode|)
    {
      RatingAnswerPicksACode(indexToCode, lines[k]);
    }
  }

  /**
   * One stripped answer in the older revision: digits, then `int()` (which raises past its
   * digit limit), then `1 <= index <= len(available_ratings)`, giving the code at `index - 1`;
   * non-digits and out-of-range numbers get the same notice.
   */
  function LegacyRatingCheck(s: string): Answer<string> {
    if !IsDigits(s) then Reject(SelectionRange(|LegacyRatings|))
    else
      match IntOfDigits(s)
      case None => Fail(IntLimitExceeded(|s|))
      case Some(index) => LegacyRatingOfIndex(index)
  }

  /** `1 <= index <= len(available_ratings)` selects the code listed at `index - 1`. */
  function LegacyRatingOfIndex(index: int): Answer<string> {
    if 1 <= index <= |LegacyRatings| then Accept(Keys(LegacyRatings)[index - 1])
    else Reject(SelectionRange(|LegacyRatings|))
  }

  function LegacyRatingAnswer(line: string): Answer<string> {
    LegacyRatingCheck(Strip(line))
  }

  /**
   * The older revision accepts exactly the numbers 1 to 5 (within the digit limit), and the
   * code is the one listed under that number; a digit string past the limit raises.
   */
  lemma LegacyRatingCheckIffListed(s: string)
    ensures LegacyRatingCheck(s).Accept? <==> IsDigits(s) && |s| <= MaxStrDigits && 1 <= DigitsValue(s) <= 5
    ensures LegacyRatingCheck(s).Accept? ==> LegacyRatingCheck(s).value == LegacyRatings[DigitsValue(s) - 1].0
    ensures LegacyRatingCheck(s).Reject? ==> LegacyRatingCheck(s).notice == SelectionRange(5)
    ensures LegacyRatingCheck(s).Fail? <==> IsDigits(s) && |s| > MaxStrDigits
    ensures LegacyRatingCheck(s).Fail? ==> LegacyRatingCheck(s).error == IntLimitExceeded(|s|)
  {
    if !IsDigits(s) {
      assert LegacyRatingCheck(s) == Reject(SelectionRange(|LegacyRatings|));
    } else if |s| > MaxStrDigits {
      assert LegacyRatingCheck(s) == Fail(IntLimitExceeded(|s|));
    } else {
      LegacyRatingOfNumber(s);
    }
  }

  lemma LegacyRatingOfNumber(s: string)
    requires IsDigits(s) && |s| <= MaxStrDigits
    ensures LegacyRatingCheck(s) ==
      if 1 <= DigitsValue(s) <= 5 then Accept(LegacyRatings[DigitsValue(s) - 1].0) else Reject(SelectionRange(5))
  {
    var index := DigitsValue(s);
    assert IntOfDigits(s) == Some(index);
    LegacyRatingIndexListed(index);
  }

  lemma LegacyRatingIndexListed(index: int)
    ensures LegacyRatingOfIndex(index) ==
      if 1 <= index <= 5 then Accept(LegacyRatings[index - 1].0) else Reject(SelectionRange(5))
  {
    assert |LegacyRatings| == 5;
    if 1 <= index <= 5 {
      assert Keys(LegacyRatings)[index - 1] == LegacyRatings[index - 1].0;
    }
  }

  /**
   * The menu line numbered `i + 1` names the code that typing that number selects, so the
   * numbers shown and the numbers read agree.
   */
  lemma MenuNumberSelectsItsCode(i: nat)
    requires i < |LegacyRatings|
    ensures RatingMenu(LegacyRatings)[i] == NatToString(i + 1) + ". " + LegacyRatings[i].0 + " - " + LegacyRatings[i].1
    ensures LegacyRatingAnswer(NatToString(i + 1)) == Accept(LegacyRatings[i].0)
  {
    var s := NatToString(i + 1);
    NatToStringRoundTrip(i + 1);
    assert |s| == 1;
    assert IsStripped(s) by { assert IsDigit(s[0]); }
    StripOfStripped(s);
    LegacyRatingCheckIffListed(s);
  }

  /** The code the older loop returns is one of the five listed codes. */
  lemma LegacyRatingChosenIsListed(lines: seq<string>, r: (Outcome<string>, seq<string>))
    requires r == RetryOf(LegacyRatingAnswer, lines) && r.0.Chosen?
    ensures r.0.value in Keys(LegacyRatings)
  {
    LegacyRatingCheckIffListed(Strip(lines[|r.1|]));
  }

  /** The older revision's rating loop. */
  method SelectLegacyRating(lines: seq<string>) returns (outcome: Outcome<string>, notices: seq<string>)
    ensures (outcome, notices) == RetryOf(LegacyRatingAnswer, lines)
    ensures forall k :: 0 <= k < |notices| ==> notices[k] == SelectionRange(5) && LegacyRatingAnswer(lines[k]).Reject?
    ensures outcome.Chosen? ==>
      LegacyRatingAnswer(lines[|notices|]) == Accept(outcome.value) && outcome.value in Keys(LegacyRatings)
    ensures outcome.Raised? ==> outcome.error == IntLimitExceeded(|Strip(lines[|notices|])|)
  {
    outcome, notices := Retry(LegacyRatingAnswer, lines);
    forall k | 0 <= k < |notices|
      ensures notices[k] == SelectionRange(5)
    {
      LegacyRatingCheckIffListed(Strip(lines[k]));
    }
    if !outcome.InputEnded? {
      LegacyRatingCheckIffListed(Strip(lines[|notices|]));
    }
  }


  // ---------------------------------------------------------------------------------------
  // The older revision's genre table

  /** A row of `get_all_genres()`. */
  datatype Genre = Genre(id: int, name: string)

  /** What the driver answers to the per-genre queries, by genre id. */
  type YearsLookup = int -> QueryBuilder.Driver<QueryBuilder.YearsRow>
  type CountLookup = int -> QueryBuilder.Driver<QueryBuilder.CountRow>

  /** The older `get_min_max_years_for_genre(id)`: the two bounds, or the ConnectionError it raises. */
  function YearsOf(years: YearsLookup, id: int): Result<(Option<int>, Option<int>)> {
    QueryBuilder.LegacyGenreYears(years(id))
  }

  /** The older `get_genre_movie_count(id)`: the count, or the ConnectionError it raises. */
  function CountOf(counts: CountLookup, id: int): Result<int> {
    QueryBuilder.LegacyGenreCount(counts(id))
  }

  /** The years lookup returns for every listed genre. */
  predicate YearsAnswered(genres: seq<Genre>, years: YearsLookup) {
    forall k :: 0 <= k < |genres| ==> YearsOf(years, genres[k].id).Ok?
  }

  /** Both lookups return for every listed genre. */
  predicate LookupsSucceed(genres: seq<Genre>, years: YearsLookup, counts: CountLookup) {
    && YearsAnswered(genres, years)
    && forall k :: 0 <= k < |genres| ==> CountOf(counts, genres[k].id).Ok?
  }

  /**
   * The exception that ends the table loop: the first lookup that raises, in genre order and,
   * for each genre, the years before the count; None when every lookup returns.
   */
  function FirstFailure(genres: seq<Genre>, years: YearsLookup, counts: CountLookup): Option<string>
    decreases |genres|
  {
    if genres == [] then None
    else if YearsOf(years, genres[0].id).Err? then Some(YearsOf(years, genres[0].id).error)
    else if CountOf(counts, genres[0].id).Err? then Some(CountOf(counts, genres[0].id).error)
    else FirstFailure(genres[1..], years, counts)
  }

  /** The loop runs to its end exactly when no lookup raises. */
  lemma {:induction false} FirstFailureIffALookupFails(genres: seq<Genre>, years: YearsLookup, counts: CountLookup)
    ensures FirstFailure(genres, years, counts).None? <==> LookupsSucceed(genres, years, counts)
    decreases |genres|
  {
    if genres != [] {
      FirstFailureIffALookupFails(genres[1..], years, counts);
      if LookupsSucceed(genres, years, counts) {
        assert LookupsSucceed(genres[1..], years, counts) by {
          forall k | 0 <= k < |genres| - 1
            ensures YearsOf(years, genres[1..][k].id).Ok? && CountOf(counts, genres[1..][k].id).Ok?
          {
            assert genres[1..][k] == genres[k + 1];
          }
          assert YearsAnswered(genres[1..], years);
        }
      } else if FirstFailure(genres, years, counts).None? {
        forall k | 0 <= k < |genres|
          ensures YearsOf(years, genres[k].id).Ok? && CountOf(counts, genres[k].id).Ok?
        {
          if k > 0 {
            assert genres[k] == genres[1..][k - 1];
          }
        }
        assert false;
      }
    }
  }

  /** What ends the loop early is always the exception of a failed connection. */
  lemma {:induction false} FirstFailureIsAConnectionError(genres: seq<Genre>, years: YearsLookup, counts: CountLookup)
    ensures FirstFailure(genres, years, counts).Some? ==>
      exists m :: FirstFailure(genres, years, counts).value == QueryBuilder.ConnectionErrorText(m)
    decreases |genres|
  {
    if genres != [] {
      var id := genres[0].id;
      if YearsOf(years, id).Err? {
        assert YearsOf(years, id).error == QueryBuilder.ConnectionErrorText(years(id).message);
      } else if CountOf(counts, id).Err? {
        assert CountOf(counts, id).error == QueryBuilder.ConnectionErrorText(counts(id).message);
      } else {
        FirstFailureIsAConnectionError(genres[1..], years, counts);
      }
    }
  }

  /** The dictionary entry of genre `g`: its two bounds and its name. */
  function InfoOf(g: Genre, years: YearsLookup): GenreInfo
    requires YearsOf(years, g.id).Ok?
  {
    GenreInfo(YearsOf(years, g.id).value.0, YearsOf(years, g.id).value.1, g.name)
  }

  /** `genre_data` after the loop: each genre's entry written in turn, a repeated id overwriting in place. */
  function GenreDataOf(genres: seq<Genre>, years: YearsLookup): GenreData
    requires YearsAnswered(genres, years)
    decreases |genres|
  {
    if genres == [] then []
    else
      var init := genres[..|genres| - 1];
      var g := genres[|genres| - 1];
      Put(GenreDataOf(init, years), g.id, InfoOf(g, years))
  }

  /** The table row `[genre_id, name, f"{min_year}-{max_year}", count]`, as text. */
  function GenreRow(g: Genre, years: (Option<int>, Option<int>), count: int): seq<string> {
    [IntToString(g.id), g.name, ShowOptional(years.0) + "-" + ShowOptional(years.1), IntToString(count)]
  }

  /** The row of genre `g`, from what its two lookups returned. */
  function RowOf(g: Genre, years: YearsLookup, counts: CountLookup): seq<string>
    requires YearsOf(years, g.id).Ok? && CountOf(counts, g.id).Ok?
  {
    GenreRow(g, YearsOf(years, g.id).value, CountOf(counts, g.id).value)
  }

  /** The rows the table loop adds, one per genre, in order. */
  function RowsOf(genres: seq<Genre>, years: YearsLookup, counts: CountLookup): seq<seq<string>>
    requires LookupsSucceed(genres, years, counts)
    decreases |genres|
  {
    if genres == [] then []
    else
      var init := genres[..|genres| - 1];
      assert LookupsSucceed(init, years, counts) by { LookupsOfPrefix(genres, years, counts, |genres| - 1); }
      RowsOf(init, years, counts) + [RowOf(genres[|genres| - 1], years, counts)]
  }

  /** Row `k` of the table is the row of genre `k`. */
  lemma {:induction false} RowsOfEachGenre(genres: seq<Genre>, years: YearsLookup, counts: CountLookup)
    requires LookupsSucceed(genres, years, counts)
    ensures |RowsOf(genres, years, counts)| == |genres|
    ensures forall k :: 0 <= k < |genres| ==> RowsOf(genres, years, counts)[k] == RowOf(genres[k], years, counts)
    decreases |genres|
  {
    if genres != [] {
      var init := genres[..|genres| - 1];
      LookupsOfPrefix(genres, years, counts, |genres| - 1);
      RowsOfEachGenre(init, years, counts);
      forall k | 0 <= k < |genres| - 1
        ensures RowsOf(genres, years, counts)[k] == RowOf(genres[k], years, counts)
      {
        assert init[k] == genres[k];
      }
    }
  }

  /** The lookups of a prefix of the genres return when those of all the genres do. */
  lemma LookupsOfPrefix(genres: seq<Genre>, years: YearsLookup, counts: CountLookup, k: nat)
    requires k <= |genres| && LookupsSucceed(genres, years, counts)
    ensures LookupsSucceed(genres[..k], years, counts)
  {
    forall j | 0 <= j < k
      ensures YearsOf(years, genres[..k][j].id).Ok? && CountOf(counts, genres[..k][j].id).Ok?
    {
      assert genres[..k][j] == genres[j];
    }
    assert YearsAnswered(genres[..k], years);
  }

  /**
   * The table loop ran to its end: every lookup returned, `genre_data` holds one entry per listed
   * id (the last genre listed under it wins) with no repeated key, and there is one row per genre,
   * in order.
   */
  predicate TableBuilt(genres: seq<Genre>, years: YearsLookup, counts: CountLookup, data: GenreData, rows: seq<seq<string>>) {
    && LookupsSucceed(genres, years, counts)
    && data == GenreDataOf(genres, years) && DistinctKeys(data)
    && |rows| == |genres|
    && forall k :: 0 <= k < |genres| ==> rows[k] == RowOf(genres[k], years, counts)
  }

  /**
   * The older `select_genre`'s table loop: for each genre in order, look up its years, then its
   * count, then store its entry and add its row. The first lookup that raises ends the loop with
   * its ConnectionError; otherwise there is one row per genre, and `genre_data` holds the entries
   * of the same lookups.
   */
  method BuildGenreTable(genres: seq<Genre>, years: YearsLookup, counts: CountLookup)
    returns (data: GenreData, rows: seq<seq<string>>, failure: Option<string>)
    ensures failure == FirstFailure(genres, years, counts)
    ensures failure.None? <==> LookupsSucceed(genres, years, counts)
    ensures failure.None? ==> TableBuilt(genres, years, counts, data, rows)
  {
    FirstFailureIffALookupFails(genres, years, counts);
    data, rows := [], [];
    var k := 0;
    assert genres[k..] == genres;
    while k < |genres|
      invariant k <= |genres|
      invariant FirstFailure(genres, years, counts) == FirstFailure(genres[k..], years, counts)
      invariant LookupsSucceed(genres[..k], years, counts)
      invariant data == GenreDataOf(genres[..k], years)
      invariant rows == RowsOf(genres[..k], years, counts)
    {
      var g := genres[k];
      assert genres[k..][0] == g && genres[k..][1..] == genres[k + 1..];
      var y := YearsOf(years, g.id);
      if y.Err? {
        return data, rows, Some(y.error);
      }
      var c := CountOf(counts, g.id);
      if c.Err? {
        return data, rows, Some(c.error);
      }
      GenreTableStep(genres, years, counts, k);
      data := Put(data, g.id, InfoOf(g, years));
      rows := rows + [GenreRow(g, y.value, c.value)];
      k := k + 1;
    }
    assert genres[..k] == genres;
    GenreDataDistinct(genres, years);
    RowsOfEachGenre(genres, years, counts);
    failure := None;
  }

  /** One more genre whose two lookups returned: the loop goes on with one more entry and one more row. */
  lemma GenreTableStep(genres: seq<Genre>, years: YearsLookup, counts: CountLookup, k: nat)
    requires k < |genres| && LookupsSucceed(genres[..k], years, counts)
    requires YearsOf(years, genres[k].id).Ok? && CountOf(counts, genres[k].id).Ok?
    ensures LookupsSucceed(genres[..k + 1], years, counts)
    ensures GenreDataOf(genres[..k + 1], years) == Put(GenreDataOf(genres[..k], years), genres[k].id, InfoOf(genres[k], years))
    ensures RowsOf(genres[..k + 1], years, counts) == RowsOf(genres[..k], years, counts) + [RowOf(genres[k], years, counts)]
  {
    forall j | 0 <= j < k + 1
      ensures YearsOf(years, genres[j].id).Ok? && CountOf(counts, genres[j].id).Ok?
    {
      if j < k {
        assert genres[..k][j] == genres[j];
      }
    }
    assert YearsAnswered(genres[..k + 1], years);
    assert genres[..k + 1][..k] == genres[..k];
  }

  /** Filling `genre_data` by assignment never repeats a key. */
  lemma {:induction false} GenreDataDistinct(genres: seq<Genre>, years: YearsLookup)
    requires YearsAnswered(genres, years)
    ensures DistinctKeys(GenreDataOf(genres, years))
    decreases |genres|
  {
    if genres != [] {
      var init := genres[..|genres| - 1];
      var g := genres[|genres| - 1];
      GenreDataDistinct(init, years);
      PutKeepsKeys(GenreDataOf(init, years), g.id, InfoOf(g, years));
    }
  }

  /** Every listed genre id gets an entry, and no other id does. */
  lemma {:induction false} GenreDataListsEveryGenre(genres: seq<Genre>, years: YearsLookup, id: int)
    requires YearsAnswered(genres, years)
    ensures Get(GenreDataOf(genres, years), id).Some? <==> exists k :: 0 <= k < |genres| && genres[k].id == id
    decreases |genres|
  {
    if genres != [] {
      var init := genres[..|genres| - 1];
      var g := genres[|genres| - 1];
      GenreDataListsEveryGenre(init, years, id);
      GetPut(GenreDataOf(init, years), g.id, InfoOf(g, years), id);
      if exists k :: 0 <= k < |genres| && genres[k].id == id {
        var k :| 0 <= k < |genres| && genres[k].id == id;
        if k < |init| {
          assert init[k].id == id;
        }
      }
      if id != g.id && Get(GenreDataOf(init, years), id).Some? {
        var k :| 0 <= k < |init| && init[k].id == id;
        assert genres[k].id == id;
      }
    }
  }

  /**
   * A repeated id keeps the bounds and name of the last genre listed with it (a later
   * assignment to `genre_data[genre_id]` overwrites an earlier one).
   */
  lemma {:induction false} GenreDataKeepsLast(genres: seq<Genre>, years: YearsLookup, k: int)
    requires YearsAnswered(genres, years)
    requires 0 <= k < |genres|
    requires forall j :: k < j < |genres| ==> genres[j].id != genres[k].id
    ensures Get(GenreDataOf(genres, years), genres[k].id) == Some(InfoOf(genres[k], years))
    decreases |genres|
  {
    var init := genres[..|genres| - 1];
    var g := genres[|genres| - 1];
    var id := genres[k].id;
    var before := GenreDataOf(init, years);
    assert GenreDataOf(genres, years) == Put(before, g.id, InfoOf(g, years));
    GetPut(before, g.id, InfoOf(g, years), id);
    if k < |init| {
      assert g.id != id;
      assert init[k] == genres[k];
      assert forall j :: k < j < |init| ==> init[j].id != init[k].id by {
        forall j | k < j < |init| ensures init[j].id != init[k].id {
          assert init[j] == genres[j];
        }
      }
      GenreDataKeepsLast(init, years, k);
    }
  }
}
