/** `get_search_console_data(site_url)`: the Search Analytics query for the
    last 90 days and the defaulting of the answer's `rows`.

    Dates are day numbers; the day the program runs (`datetime.today()`)
    is the parameter `endDay`. The API call itself is the parameter
    `execute`, which maps a call to the answer the service gives. */
module SearchConsole {
  import opened Rows

  /** Length of the look-back: `timedelta(days=90)`. */
  const WindowDays: int := 90
  /** `rowLimit` of every request: at most this many keywords come back. */
  const KeywordRowLimit: int := 1000
  /** The largest `rowLimit` the Search Analytics API accepts. */
  const ApiMaxRowLimit: int := 25000
  /** The `fields` entry of the request body, meant to ask for only the
      clicks and keys of each row. */
  const RowsFieldsMask: string := "rows/clicks,rows/keys"

  /** The body of a `searchanalytics().query` call. */
  datatype Request = Request(
    startDay: int,
    endDay: int,
    dimensions: seq<string>,
    rowLimit: int,
    fields: string)

  /** A call: the property queried and the request body. */
  datatype Call = Call(siteUrl: string, body: Request)

  datatype Option<T> = None | Some(value: T)

  /** The answer of the service; `rows` is absent when nothing matched. */
  datatype Response = Response(rows: Option<seq<ApiRow>>)

  /** A well-formed query: a non-empty date range, a row limit the API
      accepts, and the query among the dimensions. */
  predicate ValidRequest(q: Request) {
    q.startDay <= q.endDay && 0 < q.rowLimit <= ApiMaxRowLimit && "query" in q.dimensions
  }

  /** The call `get_search_console_data` makes on day `endDay`: the 90 days
      up to today, grouped by query only, at most 1000 rows, keys and
      clicks only. The API counts both dates, so the window holds 91 days,
      and a run one day later moves it one day forward. */
  function BuildCall(siteUrl: string, endDay: int): (c: Call)
    ensures c.siteUrl == siteUrl
    ensures c.body.endDay == endDay && c.body.startDay == endDay - WindowDays
    ensures c.body.dimensions == ["query"]
    ensures c.body.rowLimit == KeywordRowLimit
    ensures c.body.fields == RowsFieldsMask
    ensures ValidRequest(c.body)
  {
    Call(siteUrl, Request(endDay - WindowDays, endDay, ["query"], KeywordRowLimit, RowsFieldsMask))
  }

  /** `response.get('rows', [])`. */
  function RowsOrEmpty(response: Response): (rows: seq<ApiRow>)
    ensures response.rows.None? ==> rows == []
    ensures response.rows.Some? ==> rows == response.rows.value
  {
    match response.rows
    case None => []
    case Some(rs) => rs
  }

  /** `get_search_console_data(site_url)` on day `endDay`: the rows of the
      answer to the 90-day query, or none when the answer carries none. */
  function GetSearchConsoleData(siteUrl: string, endDay: int, execute: Call -> Response): (rows: seq<ApiRow>)
    ensures var answer := execute(BuildCall(siteUrl, endDay));
      && (answer.rows.None? ==> rows == [])
      && (answer.rows.Some? ==> rows == answer.rows.value)
  {
    RowsOrEmpty(execute(BuildCall(siteUrl, endDay)))
  }

  /** Whatever the service answers, the result is a list of rows, empty
      exactly when the answer has no rows or an empty list of them. */
  lemma DataEmptyIffNoRows(siteUrl: string, endDay: int, execute: Call -> Response)
    ensures GetSearchConsoleData(siteUrl, endDay, execute) == [] <==>
      (execute(BuildCall(siteUrl, endDay)).rows.None? ||
       execute(BuildCall(siteUrl, endDay)).rows.value == [])
  {
  }
}
