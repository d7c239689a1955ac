# git-trends: request building and pagination, in Dafny

git-trends is a small web front end for discovering GitHub repositories.
It has two views. The search view (`SearchContent`) sends the text the
user submitted, optionally narrowed by a language and ordered by a sort key.
The trending view (`TrendingList`) asks for repositories created after a
date one day, one week or one month back, most-starred first. Both views
turn their filter state into the same five-parameter request to the
repository-search endpoint. Both page through the answer 25 repositories at
a time, and both number each repository by its overall rank.

This project models that logic and proves its properties:

- `js_string.dfy` (module `JsString`): the JavaScript string primitives the views rely on. These are `trim`, described by the whitespace it strips, and `String(n)` and the zero-padded date fields, each with a parser that inverts it.
- `js_date.dfy` (module `JsDate`): the calendar part of JavaScript's `Date` on one UTC calendar. It covers the proleptic Gregorian calendar with leap years, the roll-over of `setDate` and `setMonth`, the day after a date, and the `YYYY-MM-DD` date part of `toISOString` with its parser.
- `search_api.dfy` (module `SearchApi`): the ordered parameter list `q, sort, order, per_page, page`. A decoder shows that this list and the triple (query, sort, page) determine each other. The module also holds the defaults the views apply to a response.
- `paging.dfy` (module `Paging`): the rank formula, when Previous and Next are shown and enabled, and the page updates their handlers apply.
- `search_content.dfy` (module `SearchContent`): the search query. The class `SearchState` holds `query`, `submittedQuery`, `language`, `sort` and `page`, with one method per event handler.
- `trending_list.dfy` (module `TrendingList`): `getDateSince` as a function of "now" and the range selector, and the trending query. The class `TrendingState` holds `range`, `language` and `page`, with one method per event handler.

Four behaviours of the code that a reader might not expect; the model follows the code:

- The fetcher never checks the HTTP status. A non-2xx response whose body is JSON (a rate-limit message, say) therefore arrives as data without `items`. It shows as an empty list, not as an error (`Repos`, `TotalCount`).
- Next is disabled when fewer than 25 repositories arrived (`repos.length < 25`). So it is enabled for 25 or more, not only for exactly 25.
- The rule that a late answer to an older request is discarded is not in these files. It is left to the data-fetching library (see below).
- The monthly window is `setMonth(getMonth() - 1)` with JavaScript's day overflow, not a clamped month subtraction. When the previous month is shorter than today's day number, the window starts on day 1 to 3 of the current month. That happens on 29 to 31 March (only 30 and 31 March in a leap year) and on the 31st after a 30-day month.

## Model

| member | source | states |
|---|---|---|
| `JsString.Trim` | components/search-content.tsx:59-60 | `query.trim()` is the slice of the text after its whitespace prefix; everything after the slice is whitespace; the result neither starts nor ends with ECMAScript whitespace |
| `JsString.TrimEmptyIffBlank` | components/search-content.tsx:59 | the trimmed text is empty (the submit guard fails) exactly when the text is all whitespace |
| `JsString.TrimIdempotent` | components/search-content.tsx:60 | trimming the submitted text again changes nothing |
| `JsString.TrimFixesTrimmed` | components/search-content.tsx:60 | a string without whitespace at either end is exactly one that `trim` leaves unchanged |
| `JsString.NatToString` | components/search-content.tsx:42 | `String(page)` is a non-empty digit string with no leading zero unless the page is 0 |
| `JsString.NatToStringRoundTrip` | components/search-content.tsx:42 | `String(page)` is canonical and reads back as `page` |
| `JsString.ParseDigitsRoundTrip` | components/search-content.tsx:42 | every canonical decimal string is `String` of its value, so the page parameter determines the page |
| `JsString.ZeroPadRoundTrip` | components/trending-list.tsx:36 | a zero-padded date field reads back as its value when the value fits the width |
| `JsString.ParseZeroPadRoundTrip` | components/trending-list.tsx:36 | every digit field is the zero-padded form of its value |
| `JsDate.Normalize` | components/trending-list.tsx:27-33 | day `d` of a month, `d` possibly outside the month, rolls over into a valid calendar date (MakeDay) |
| `JsDate.NextDayOfNormalize` | components/trending-list.tsx:27-33 | the day after the rolled-over date of day `d` is the rolled-over date of day `d + 1`, for every integer `d` |
| `JsDate.NextDaysOfNormalize` | components/trending-list.tsx:27-33 | `k` days after the rolled-over date of day `d` is the rolled-over date of day `d + k` |
| `JsDate.BeforeNextDays` | components/trending-list.tsx:23-35 | a date is strictly earlier than every date one or more days after it |
| `JsDate.SetDate` | components/trending-list.tsx:26-34 | `setDate(n)` gives a valid date; a day the month has is taken as it is; setting the day to `n` no later than today's goes back exactly `day - n` days, across month and year ends |
| `JsDate.SetMonth` | components/trending-list.tsx:30 | `setMonth(index)` gives a valid date; the same day number in the target month (index taken modulo 12, the year moved by its floor quotient) when that month has the day, otherwise the overflow days into the month after |
| `JsDate.FormatIsoDate` | components/trending-list.tsx:36 | for years 0 to 9999 the date part of `toISOString` has the `YYYY-MM-DD` shape and reads back as the same date; other years print as 13 characters: the year's sign, six digits, then `-MM-DD` |
| `JsDate.IsoDateParseRoundTrip` | components/trending-list.tsx:36 | every string that reads as a date is that date printed, so printing is a bijection between the dates in the years 0 to 9999 and the strings that read as a date |
| `TrendingList.DateSince` | components/trending-list.tsx:23-35 | the window start is a valid calendar date for every selector |
| `TrendingList.DailyWindow` | components/trending-list.tsx:32-34 | for "daily" and every unknown selector, now is the day after the window start; the start is the previous day of the month or the last day of the previous month |
| `TrendingList.WeeklyWindow` | components/trending-list.tsx:26-28 | for "weekly", now is exactly 7 days after the window start; the start is 7 days earlier in the month or late in the previous month |
| `TrendingList.SetMonthBack` | components/trending-list.tsx:30 | `setMonth(getMonth() - 1)` is the same day number in the previous month, rolled over, including December of the previous year from January |
| `TrendingList.MonthlyWindow` | components/trending-list.tsx:29-31 | for "monthly", now is exactly as many days after the window start as the previous month has; the start is the same day of the previous month when that exists, otherwise it overflows into the current month at day 3 or earlier |
| `TrendingList.JanuaryMonthlyWindow` | components/trending-list.tsx:30 | in January the monthly window starts on the same day of December of the previous year |
| `TrendingList.MarchThirtyFirstMonthlyWindow` | components/trending-list.tsx:30 | 31 March minus one month is 3 March, or 2 March in a leap year |
| `TrendingList.WindowStartsBeforeNow` | components/trending-list.tsx:23-35 | for every selector the window start is strictly earlier than now and at most one year earlier |
| `TrendingList.GetDateSince` | components/trending-list.tsx:23-36 | for a clock in the years 1 to 9999, `getDateSince` returns a 10-character `YYYY-MM-DD` string that reads back as the window start |
| `TrendingList.TrendingQuery` | components/trending-list.tsx:45-48 | `q` starts with `created:>` and the date; it ends there iff no language is chosen, and otherwise the rest is ` language:L` |
| `TrendingList.TrendingQueryRoundTrip` | components/trending-list.tsx:44-48 | `q` is `created:>DATE` first and ` language:L` last iff a language is chosen; it reads back as the window start and the language |
| `TrendingList.SortFor` | components/trending-list.tsx:50-58 | the sort key is "stars" for each of the three ranges, and for every other string that is not a key of `Object.prototype` (see Left out) |
| `TrendingList.TrendingRequest` | components/trending-list.tsx:56-65 | the request always exists and decodes to the trending query, sort "stars" and the page |
| `TrendingList.TrendingState.Key` | components/trending-list.tsx:56-65 | the request of the current state at time now decodes to the trending query for its range and language, sort "stars" and its page |
| `TrendingList.WeeklyRustScenario` | components/trending-list.tsx:44-62 | weekly Rust on page 1 is `q=created:>DATE language:rust, sort=stars, order=desc, per_page=25, page=1` with DATE seven days before now |
| `TrendingList.TrendingState.constructor` | components/trending-list.tsx:40-42 | the view starts on "daily", no language, page 1 |
| `TrendingList.TrendingState.SelectRange` | components/trending-list.tsx:77-86 | a range button sets the range to its own value, one of daily, weekly and monthly, and resets the page to 1; the language is unchanged |
| `TrendingList.TrendingState.ChangeLanguage` | components/trending-list.tsx:103-106 | the language selector sets the language and resets the page to 1; the range is unchanged |
| `TrendingList.TrendingState.ClickPrevious` | components/trending-list.tsx:144-149 | a click on a shown Previous with page > 1 goes back one page; otherwise nothing changes; the page stays >= 1 |
| `TrendingList.TrendingState.ClickNext` | components/trending-list.tsx:144-161 | a click on a shown Next after 25 or more repositories goes forward one page; otherwise nothing changes |
| `SearchApi.Names` | components/search-content.tsx:37-43 | the names of a parameter list, position by position |
| `SearchApi.RequestParams` | components/search-content.tsx:37-43 | the parameters are q, sort, order, per_page, page in this order; order is "desc" and per_page is `String(25)` whatever the input; page is the canonical decimal of the page |
| `SearchApi.DecodeRequestParams` | components/search-content.tsx:37-43 | the parameter list decodes back to its query, sort key and page |
| `SearchApi.RequestParamsOfDecode` | components/trending-list.tsx:56-62 | every list that decodes is the parameter list of what it decodes to |
| `SearchApi.RequestParamsInjective` | components/trending-list.tsx:56-65 | two requests are the same key iff they agree on query, sort key and page |
| `SearchApi.Repos` | components/search-content.tsx:53 | a missing response or a response without `items` gives the empty list; otherwise the items |
| `SearchApi.TotalCount` | components/search-content.tsx:54 | a missing response or a response without `total_count` gives 0; otherwise the count |
| `Paging.Rank` | components/search-content.tsx:147 | the items on page p carry ranks from (p-1)*25 + 1 to p*25 |
| `Paging.RankRoundTrip` | components/search-content.tsx:147 | page and position are recovered from the rank |
| `Paging.RankOfPosition` | components/trending-list.tsx:139 | every positive rank is printed at exactly one page and position |
| `Paging.RankInjective` | components/trending-list.tsx:139 | distinct positions on any pages get distinct ranks |
| `Paging.RankContiguous` | components/search-content.tsx:147 | the last rank of a full page is followed by the first rank of the next page |
| `Paging.RankedRepos` | components/search-content.tsx:143-149 | each card keeps its repository, the first rank on page p is (p-1)*25 + 1, and ranks rise by one from card to card |
| `Paging.PagerShown` | components/search-content.tsx:152 | the pager is shown iff loading is over and at least one repository arrived, so always after a full page |
| `Paging.PreviousEnabled` | components/search-content.tsx:156 | Previous is enabled iff the page is 2 or more, which is exactly when its updater moves back one page instead of being held at 1 |
| `Paging.NextEnabled` | components/search-content.tsx:166 | Next is enabled iff 25 or more repositories arrived; for a response of at most 25, iff the page is full |
| `Paging.PreviousPage` | components/search-content.tsx:157 | `Math.max(1, p - 1)` is at least 1 and is p - 1 unless p <= 1 |
| `Paging.NextPage` | components/search-content.tsx:167 | the Next updater moves forward exactly one page |
| `Paging.PreviousAfterNext` | components/search-content.tsx:157-167 | Next then Previous returns to the same page |
| `Paging.NextAfterPrevious` | components/search-content.tsx:156-167 | an enabled Previous then Next returns to the same page |
| `Paging.MissingItemsHidesPager` | components/search-content.tsx:152 | a response without `items` shows no pager |
| `SearchContent.FullQuery` | components/search-content.tsx:32-35 | `q` starts with the submitted text; `q` equals the text iff no language is chosen; otherwise the rest is ` language:L` |
| `SearchContent.FullQueryAmbiguous` | components/search-content.tsx:32-35 | text and language qualifier are not separated: "raft language:go" with no language makes the same `q` as "raft" with Go |
| `SearchContent.SearchRequest` | components/search-content.tsx:45-48 | there is no request iff the submitted text is empty; otherwise the request decodes to the full query, the sort key and the page |
| `SearchContent.RaftExample` | components/search-content.tsx:32-43 | "raft" in Go by stars on page 2 is `q=raft language:go, sort=stars, order=desc, per_page=25, page=2` |
| `SearchContent.SearchState.Key` | components/search-content.tsx:45-48 | the state makes no request iff its submitted text is empty; otherwise its request decodes to the full query, its sort key and its page |
| `SearchContent.SearchState.constructor` | components/search-content.tsx:26-30 | the view starts with nothing typed or submitted, no language, sort by stars, page 1, and no request |
| `SearchContent.SearchState.Type` | components/search-content.tsx:76-77 | typing changes only the text box, never the request |
| `SearchContent.SearchState.Submit` | components/search-content.tsx:56-65 | a blank box changes nothing; otherwise the submitted text becomes the trimmed box text and the page becomes 1, so a request is issued |
| `SearchContent.SearchState.ChangeLanguage` | components/search-content.tsx:92-96 | the language selector sets the language and resets the page to 1; the submitted text and the sort key are unchanged |
| `SearchContent.SearchState.ChangeSort` | components/search-content.tsx:108-112 | the sort selector sets the sort key and resets the page to 1; the submitted text and the language are unchanged |
| `SearchContent.SearchState.ClickPrevious` | components/search-content.tsx:152-157 | a click on a shown Previous with page > 1 goes back one page; otherwise nothing changes; the page stays >= 1 |
| `SearchContent.SearchState.ClickNext` | components/search-content.tsx:152-167 | a click on a shown Next after 25 or more repositories goes forward one page; otherwise nothing changes |

## Left out

- `useSWR` and `fetcher`: the network call, its `Accept` header, caching, deduplication, `keepPreviousData` and `revalidateOnFocus: false` belong to the data-fetching library, which is not part of this model. The request it receives is modelled (`SearchRequest`, `TrendingRequest`); what it returns is the input `data` of `Repos` and `TotalCount`.
- Discarding a late answer to a superseded request: done, if at all, inside the data-fetching library; these files do not do it.
- `isLoading` and `error`: they come from the data-fetching library. `isLoading` and the number of repositories are parameters of the click methods. `error` only selects what is rendered.
- URLSearchParams serialisation (form-urlencoding, `+` for a space, `&` between pairs): the request key is modelled as the ordered parameter list, and the proofs that the list determines (query, sort, page) are about that list.
- Time zones: `setDate` and `setMonth` work in local time while `toISOString` prints UTC. The model uses one UTC calendar, so it does not show the one-day shift near midnight.
- The time of day: `setDate` and `setMonth` keep it; only the calendar date is modelled.
- `JsDate.FormatIsoDate`: dates outside the range of a JavaScript `Date` (about 275 000 years from 1970), where `toISOString` throws a RangeError, are not modelled. For years of a million or more the six-digit field keeps only the low six digits, where JavaScript would have thrown; a clock never produces such years.
- `TrendingList.SortFor`: `sortMap` is a plain object, so a range equal to an inherited key of `Object.prototype` (`constructor`, `toString`, `valueOf`, `hasOwnProperty` and the like) would look up a function, not "stars". The model gives "stars" for those keys too. No such range can occur: `range` only ever takes the three button values, which `TrendingState` keeps as an invariant.
- Response payloads: `items` is either an array of repositories or absent, and `total_count` is either an integer or absent. Other JSON values (null, a string, NaN) are not modelled separately.
- React scheduling: each handler is one atomic step. Batching and re-rendering are not modelled.
- Rendering: JSX, skeleton counts, messages, icons and `toLocaleString` formatting.
- The `LANGUAGES` list and the `SORT_OPTIONS` values: the language and the sort key are arbitrary strings.
- app/layout.tsx: page metadata, fonts and layout only; no logic.
