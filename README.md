# Top Search Console keywords — a Dafny model

The program is a small Streamlit page. It asks the Google Search Console
Search Analytics API for the queries of one site over the last 90 days and
shows the five queries with the most clicks. It comes in two variants:
`BU.py` authenticates with OAuth, `app.py` with a service account. Both
have the same `get_search_console_data` and `get_top_keywords`, line for
line. Each row below cites one of the two files. The same code sits in the
other file at these lines:

| BU.py | app.py |
|---|---|
| 43-60 (`get_search_console_data`) | 22-39 |
| 63-67 (`get_top_keywords`) | 42-46 |
| 84-91 (results branch of `main`) | 59-66 |

The model has five modules:

- `Rows`: the API row as the top-keyword selection reads it
  (`ApiRow`: keys and a numeric click count; the request body carries a
  `fields` entry `rows/clicks,rows/keys` meant as a mask for these two,
  and whether the service honours it is not modelled), the data-frame row
  (`Record`: the pandas index label, the keys, the integer clicks),
  and `astype(int)` as truncation toward zero.
- `ClickOrder`: what `sort_values(by='clicks', ascending=False)` may
  produce (`IsClickOrder`: a permutation with non-increasing clicks).
  It also holds one concrete such order, an insertion sort.
  pandas' default sort is not stable, so no contract promises an order
  among rows of equal clicks. `SameClicksAnyOrder` shows that every
  allowed order has the same click column.
- `TopKeywords`: `head(n)` and `get_top_keywords`, including the
  `KeyError` pandas raises when the list is empty.
- `SearchConsole`: the request body built for day `endDay`, and
  `response.get('rows', [])`.
- `Display`: the branch of `main` that shows either the table or
  "Aucune donnée trouvée".

The day the program runs is the parameter `endDay` (an integer day
number). The network call is the parameter `execute`, a function from the
call to the service's answer.

## Model

| member | source | states |
|---|---|---|
| `Rows.TruncToInt` | BU.py:65 | the integer click count lies within one of the raw count, on the side of zero (truncation toward zero) |
| `Rows.TruncOfWhole` | BU.py:65 | a whole-number click count keeps its value when converted |
| `Rows.TruncMonotone` | app.py:44-45 | conversion comes before sorting and never reverses two rows; it can only make them tie |
| `Rows.Frame` | BU.py:64-65 | definition: one record per input row, labelled 0, 1, … with that row's keys and truncated clicks; beyond that, no record occurs twice |
| `ClickOrder.Insert` | BU.py:66 | inserting into a descending sequence keeps it descending and adds exactly that one record |
| `ClickOrder.SortByClicks` | BU.py:66 | the sort gives a permutation of its input ordered by clicks, largest first |
| `ClickOrder.DescendingIntsUnique` | BU.py:66 | two non-increasing integer sequences with the same elements are equal |
| `ClickOrder.MultisetClicks` | BU.py:66 | rearranging records rearranges their click column the same way |
| `ClickOrder.SameClicksAnyOrder` | BU.py:66 | any two orders the descending sort may produce have the same click at every position |
| `TopKeywords.HeadLength` | BU.py:67 | definition: `head(n)` keeps `min(n, len)` rows, or for negative `n` all but the last `-n` |
| `TopKeywords.Head` | BU.py:67 | definition: `head(n)` is the prefix of that length |
| `TopKeywords.PrefixIsTop` | BU.py:66-67 | a prefix of a click order is descending and a sub-multiset of the frame; each of its records is the frame's record with that index, no index twice; no left-out row has more clicks than a kept one |
| `TopKeywords.GetTopKeywords` | BU.py:63-67 | empty data raises `KeyError('clicks')`; otherwise the result has `head(top_n)` rows, is ordered by clicks, has only input rows with their keys and integer clicks, no index twice, and is the top `top_n`; `top_n` defaults to 5 |
| `TopKeywords.HeadClicksAgree` | app.py:45-46 | the first `n` rows of any two orders the descending sort may produce have the same clicks, position by position |
| `TopKeywords.TopClicksIndependentOfTies` | app.py:45-46 | the result's clicks equal the head of every allowed click order, so tie order among equal clicks does not matter |
| `TopKeywords.TopLength` | app.py:46 | with `top_n >= 0` the result has exactly `min(top_n, len(data))` rows |
| `TopKeywords.TopIsMonotone` | BU.py:67 | the top `m` is a prefix of the top `n` when `m <= n` |
| `TopKeywords.TopOfAllIsPermutation` | app.py:43-46 | when `top_n` covers the input, the result holds every frame row exactly once |
| `SearchConsole.BuildCall` | app.py:26-36 | the request covers the 91 days from `endDay - 90` to `endDay` and groups by `['query']`; it has `rowLimit` 1000 and the `fields` entry `rows/clicks,rows/keys`; it is a valid request (start before end, limit within the API's 25000, query among the dimensions) |
| `SearchConsole.RowsOrEmpty` | app.py:39 | definition: an answer without `rows` gives the empty list, otherwise its rows unchanged |
| `SearchConsole.GetSearchConsoleData` | app.py:22-39 | definition: the result is the rows of the service's answer to the built call, or empty when the answer has none |
| `SearchConsole.DataEmptyIffNoRows` | BU.py:60 | the data is empty exactly when the answer has no `rows` key or an empty list |
| `Display.ShowResults` | app.py:59-66 | `get_top_keywords` is reached only with non-empty data and never raises; empty data shows the no-data message; otherwise at most five top rows, ordered, from the input |
| `Display.NoRowsShowsNoData` | BU.py:84-91 | an answer without rows shows the no-data message; one with rows shows a table of one to five rows |

## Left out

- OAuth flow, authorization-code prompt and session-state credentials (BU.py:17-40, BU.py:74-75): external authentication state.
- Service-account loading and `build(...)` (app.py:14-19): calls into Google client libraries; the service is replaced by the `execute` parameter.
- The network call `searchanalytics().query(...).execute()`: modelled only by the answer it returns. How the service applies the request (date filtering, the row limit, the `fields` entry) is not modelled.
- Exceptions raised by that call (an `HttpError`, a quota refusal, a network failure) propagate uncaught through `get_search_console_data` and `main` (BU.py:59, BU.py:84, app.py:38, app.py:59). The total function `execute: Call -> Response` always gives an answer, so the model cannot express such a failure.
- Rows.TruncToInt: does not model the fixed width of NumPy's default integer, int64 on Linux and macOS and int32 on Windows before NumPy 2.0. A click count outside that range would wrap or come out as an undefined value of the float cast; here integers are unbounded.
- `datetime.today()` and the ISO formatting of dates by `str(date)`: the end day is a parameter and dates are integer day numbers.
- Streamlit output (titles, text inputs, buttons, `st.dataframe`): presentation only; `Display` models only which of the two screens the results branch shows.
- Rows without a `clicks` field, or with a non-finite one, which `astype(int)` would reject: the Search Analytics API always reports clicks for a row.
- `TopKeywords.GetTopKeywords`: does not promise which of several rows with equal clicks is kept at the cut or in what order they appear, because pandas' default sort is not stable. `SortByClicks` is just one allowed order.
- Other row columns: the `fields` entry sits inside the request body (BU.py:56, app.py:35) sent as `body=request`, not in the client's own `fields=` argument. If the service ignores it, each row also carries `impressions`, `ctr` and `position`, which then appear in the frame and in the table shown. `ApiRow` and `Record` drop those columns; they do not affect the sort or the cut.
- A request the service rejects because of that entry raises from `execute()`: this is the uncaught-exception case listed above.
