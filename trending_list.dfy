/** The trending page (`TrendingList`): a time range and a language select
    repositories created after a date, most-starred first. The date is
    computed from "now", which is a parameter here (the component reads
    the clock). Unlike search, a request is always issued. */
module TrendingList {
  import opened JsString
  import opened JsDate
  import opened SearchApi
  import opened Paging

  /** The window start of `getDateSince(range)`: one month back for
      "monthly" (`setMonth(getMonth() - 1)`), seven days back for "weekly",
      and one day back for "daily" and every other selector. */
  function DateSince(now: Date, range: string): (r: Date)
    requires ValidDate(now)
    ensures ValidDate(r)
  {
    if range == "weekly" then SetDate(now, now.day - 7)
    else if range == "monthly" then SetMonth(now, (now.month - 1) - 1)
    else SetDate(now, now.day - 1)
  }

  /** `getDateSince(range)`: the window start printed as `YYYY-MM-DD`.
      For a clock in the years 1 to 9999 it is a ten-character date string
      that reads back as the window start. */
  function GetDateSince(now: Date, range: string): (s: string)
    requires ValidDate(now)
    ensures 1 <= now.year <= 9999 ==> IsIsoDateShape(s) && ParseIsoDate(s) == Some(DateSince(now, range))
  {
    WindowStartsBeforeNow(now, range);
    FormatIsoDate(DateSince(now, range))
  }

  /** Weekly: the window starts exactly seven days before now, in the same
      month when the day allows and otherwise late in the previous month. */
  lemma WeeklyWindow(now: Date)
    requires ValidDate(now)
    ensures NextDays(DateSince(now, "weekly"), 7) == now
    ensures var p := PreviousMonth(now.year, now.month);
      DateSince(now, "weekly") ==
        if now.day > 7 then Date(now.year, now.month, now.day - 7)
        else Date(p.year, p.month, DaysInMonth(p.year, p.month) + now.day - 7)
  {
    NextDaysOfNormalize(now.year, now.month, now.day - 7, 7);
    NormalizeValid(now);
  }

  /** Daily, and any selector other than "weekly" and "monthly": the window
      starts the day before now. */
  lemma DailyWindow(now: Date, range: string)
    requires ValidDate(now) && range != "weekly" && range != "monthly"
    ensures NextDay(DateSince(now, range)) == now
    ensures var p := PreviousMonth(now.year, now.month);
      DateSince(now, range) ==
        if now.day > 1 then Date(now.year, now.month, now.day - 1)
        else Date(p.year, p.month, DaysInMonth(p.year, p.month))
  {
    NextDayOfNormalize(now.year, now.month, now.day - 1);
    NormalizeValid(now);
  }

  /** `setMonth(getMonth() - 1)` lands on the previous month, including
      December of the previous year from January. */
  lemma SetMonthBack(now: Date)
    requires ValidDate(now)
    ensures var p := PreviousMonth(now.year, now.month);
      SetMonth(now, (now.month - 1) - 1) == Normalize(p.year, p.month, now.day)
  {
  }

  /** Monthly: the same day of the previous month when that month has it;
      otherwise the day overflows into the current month, landing at most
      on day 3. Either way now is exactly as many days later as the
      previous month has. */
  lemma MonthlyWindow(now: Date)
    requires ValidDate(now)
    ensures var p := PreviousMonth(now.year, now.month);
      && NextDays(DateSince(now, "monthly"), DaysInMonth(p.year, p.month)) == now
      && DateSince(now, "monthly") ==
           (if now.day <= DaysInMonth(p.year, p.month) then Date(p.year, p.month, now.day)
            else Date(now.year, now.month, now.day - DaysInMonth(p.year, p.month)))
      && (now.day > DaysInMonth(p.year, p.month) ==> DateSince(now, "monthly").day <= 3)
  {
    var p := PreviousMonth(now.year, now.month);
    var k := DaysInMonth(p.year, p.month);
    SetMonthBack(now);
    NextDaysOfNormalize(p.year, p.month, now.day, k);
    assert FollowingMonth(p.year, p.month) == YearMonth(now.year, now.month);
    assert Normalize(p.year, p.month, now.day + k) == Normalize(now.year, now.month, now.day);
    NormalizeValid(now);
    if now.day > k {
      assert Normalize(now.year, now.month, now.day - k) == Date(now.year, now.month, now.day - k);
    }
  }

  /** In January the monthly window starts in December of the previous year. */
  lemma JanuaryMonthlyWindow(now: Date)
    requires ValidDate(now) && now.month == 1
    ensures DateSince(now, "monthly") == Date(now.year - 1, 12, now.day)
  {
  }

  /** 31 March minus one month is 3 March, or 2 March in a leap year. */
  lemma MarchThirtyFirstMonthlyWindow(year: int)
    ensures DateSince(Date(year, 3, 31), "monthly") == Date(year, 3, if IsLeapYear(year) then 2 else 3)
  {
  }

  /** For every selector the window starts strictly before now, and at
      most one year earlier. */
  lemma WindowStartsBeforeNow(now: Date, range: string)
    requires ValidDate(now)
    ensures Before(DateSince(now, range), now)
    ensures now.year - 1 <= DateSince(now, range).year <= now.year
  {
    if range == "weekly" {
      WeeklyWindow(now);
      BeforeNextDays(DateSince(now, range), 7);
    } else if range == "monthly" {
      MonthlyWindow(now);
      var p := PreviousMonth(now.year, now.month);
      BeforeNextDays(DateSince(now, range), DaysInMonth(p.year, p.month));
    } else {
      DailyWindow(now, range);
      BeforeNextDays(DateSince(now, range), 1);
    }
  }

  /** The `q` parameter: `created:>DATE`, then ` language:L` when a language is chosen. */
  function TrendingQuery(dateSince: string, language: string): (q: string)
    ensures var n := 9 + |dateSince|;
      && |q| >= n && q[..9] == "created:>" && q[9..n] == dateSince
      && (|q| == n <==> language == "")
      && (language != "" ==> q[n..] == " language:" + language)
  {
    var created := "created:>" + dateSince;
    if language != "" then created + " language:" + language else created
  }

  /** Reads a trending query back into its date and language; `None` for
      anything `TrendingQuery` cannot produce from a ten-character date. */
  function ParseTrendingQuery(q: string): Option<(Date, string)> {
    if |q| < 19 || q[..9] != "created:>" then None
    else
      var date := ParseIsoDate(q[9..19]);
      if date.None? then None
      else if |q| == 19 then Some((date.value, ""))
      else if |q| > 29 && q[19..29] == " language:" then Some((date.value, q[29..]))
      else None
  }

  /** The created qualifier always comes first and the language, when
      chosen, last: the query reads back as the window start and the
      language. */
  lemma TrendingQueryRoundTrip(now: Date, range: string, language: string)
    requires ValidDate(now) && 1 <= now.year <= 9999
    ensures ParseTrendingQuery(TrendingQuery(GetDateSince(now, range), language))
      == Some((DateSince(now, range), language))
  {
  }

  /** The values of the time-range buttons, in their order. */
  const TimeRanges: seq<string> := ["daily", "weekly", "monthly"]

  /** `sortMap[range] || "stars"`, for a map holding only its three own
      keys. */
  function SortFor(range: string): (sort: string)
    ensures sort == "stars"
  {
    var sortMap := map["daily" := "stars", "weekly" := "stars", "monthly" := "stars"];
    if range in sortMap && sortMap[range] != "" then sortMap[range] else "stars"
  }

  /** The key handed to `useSWR`, never absent: it decodes to the trending
      query, sort by stars and the page. */
  function TrendingRequest(now: Date, range: string, language: string, page: nat): (ps: seq<Param>)
    requires ValidDate(now)
    ensures DecodeParams(ps) == Some(Request(TrendingQuery(GetDateSince(now, range), language), "stars", page))
  {
    var q := TrendingQuery(GetDateSince(now, range), language);
    DecodeRequestParams(q, SortFor(range), page);
    RequestParams(q, SortFor(range), page)
  }

  /** Weekly Rust repositories, first page. */
  lemma WeeklyRustScenario(now: Date)
    requires ValidDate(now)
    ensures var since := DateSince(now, "weekly");
      && NextDays(since, 7) == now
      && TrendingRequest(now, "weekly", "rust", 1) == [
           Param("q", "created:>" + FormatIsoDate(since) + " language:rust"),
           Param("sort", "stars"), Param("order", "desc"),
           Param("per_page", "25"), Param("page", "1")]
  {
    WeeklyWindow(now);
    var q := TrendingQuery(GetDateSince(now, "weekly"), "rust");
    assert q == "created:>" + FormatIsoDate(DateSince(now, "weekly")) + " language:rust";
    assert NatToString(1) == "1";
  }

  /** The component's state. */
  class TrendingState {
    var range: string
    var language: string
    var page: int

    /** The page never drops below 1 and the range is one of the buttons' values. */
    ghost predicate Valid()
      reads this
    {
      page >= 1 && range in TimeRanges
    }

    /** The request the current state makes at time `now`: the trending
        query for the range and language, by stars, at the current page. */
    function Key(now: Date): (k: seq<Param>)
      reads this
      requires ValidDate(now) && page >= 1
      ensures DecodeParams(k) == Some(Request(TrendingQuery(GetDateSince(now, range), language), "stars", page))
    {
      TrendingRequest(now, range, language, page)
    }

    /** The initial state: daily, any language, page 1. */
    constructor ()
      ensures Valid()
      ensures range == "daily" && language == "" && page == 1
    {
      range, language, page := "daily", "", 1;
    }

    /** A time-range button's `onClick`: selects the button's range and
        returns to page 1. */
    method SelectRange(value: string)
      requires Valid() && value in TimeRanges
      modifies this
      ensures Valid()
      ensures range == value && page == 1 && language == old(language)
    {
      range := value;
      page := 1;
    }

    /** The language selector's `onChange`: sets the language and returns to page 1. */
    method ChangeLanguage(value: string)
      requires Valid()
      modifies this
      ensures Valid()
      ensures language == value && page == 1 && range == old(range)
    {
      language := value;
      page := 1;
    }

    /** A click on Previous: only a shown, enabled button moves one page back. */
    method ClickPrevious(isLoading: bool, itemCount: nat)
      requires Valid()
      modifies this
      ensures Valid()
      ensures page == if PagerShown(isLoading, itemCount) && PreviousEnabled(old(page)) then old(page) - 1 else old(page)
      ensures range == old(range) && language == old(language)
    {
      if PagerShown(isLoading, itemCount) && PreviousEnabled(page) {
        page := PreviousPage(page);
      }
    }

    /** A click on Next: only a shown button after a full page moves one page on. */
    method ClickNext(isLoading: bool, itemCount: nat)
      requires Valid()
      modifies this
      ensures Valid()
      ensures page == if PagerShown(isLoading, itemCount) && NextEnabled(itemCount) then old(page) + 1 else old(page)
      ensures range == old(range) && language == old(language)
    {
      if PagerShown(isLoading, itemCount) && NextEnabled(itemCount) {
        page := NextPage(page);
      }
    }
  }
}
