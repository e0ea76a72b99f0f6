/** The part of `main` that runs when the results button is pressed: fetch
    the data, then show the top keywords or "Aucune donnée trouvée". */
module Display {
  import opened Rows
  import opened ClickOrder
  import opened TopKeywords
  import opened SearchConsole

  /** What the page shows. `Crashed` is what an exception out of
      `get_top_keywords` would show; it never happens. */
  datatype Screen = NoDataFound | TopTable(rows: seq<Record>) | Crashed(error: Error)

  /** `if data: st.dataframe(get_top_keywords(data)) else: st.write(...)`. */
  function ShowResults(siteUrl: string, endDay: int, execute: Call -> Response): (s: Screen)
    ensures !s.Crashed?
    ensures s.NoDataFound? <==> GetSearchConsoleData(siteUrl, endDay, execute) == []
    ensures s.TopTable? ==>
      var data := GetSearchConsoleData(siteUrl, endDay, execute);
      && |s.rows| == (if |data| < DefaultTopN then |data| else DefaultTopN)
      && Descending(s.rows)
      && multiset(s.rows) <= multiset(Frame(data))
      && forall i, k :: 0 <= i < |data| && i !in Indices(s.rows) && 0 <= k < |s.rows| ==>
           TruncToInt(data[i].clicks) <= s.rows[k].clicks
  {
    var data := GetSearchConsoleData(siteUrl, endDay, execute);
    if |data| > 0 then
      match GetTopKeywords(data)
      case Ok(top) => TopTable(top)
      case Err(e) => Crashed(e)
    else
      NoDataFound
  }

  /** An answer without `rows` shows "Aucune donnée trouvée"; an answer with
      rows shows at most five of them. */
  lemma NoRowsShowsNoData(siteUrl: string, endDay: int, execute: Call -> Response)
    ensures execute(BuildCall(siteUrl, endDay)).rows.None? ==>
      ShowResults(siteUrl, endDay, execute) == NoDataFound
    ensures execute(BuildCall(siteUrl, endDay)).rows.Some? &&
            execute(BuildCall(siteUrl, endDay)).rows.value != [] ==>
      ShowResults(siteUrl, endDay, execute).TopTable? &&
      0 < |ShowResults(siteUrl, endDay, execute).rows| <= DefaultTopN
  {
  }
}
