/**
 * `get_filtered_calendar_data` of test.py once the page is parsed: keep the
 * scraped rows whose event name contains a target keyword and give an empty
 * actual or previous figure the placeholder "---".  The HTTP request and the
 * HTML traversal are not modelled; the scraped rows arrive as an input.
 */
module Calendar {
  import opened Wrappers
  import opened Registry
  import opened Metric

  /** The '%m-%d' date of an event; the year is inferred later. */
  datatype MonthDay = MonthDay(month: int, day: int)

  /** A figure cell: scraped text, or a value written over it from FRED. */
  datatype Cell = Text(text: string) | Fred(display: Display)

  /** One table row: 日期, 經濟數據, 實際, 預計, 前期. */
  datatype Row = Row(date: MonthDay, name: string, actual: Cell, forecast: string, previous: Cell)

  /**
   * A scraped `tr.js-event-item`: the event cell (None when the row has
   * none), the timestamp as `strptime` reads it (None when it raises), and
   * the texts of the act, fore and prev cells ("" when a cell is absent).
   */
  datatype ScrapedRow = ScrapedRow(name: Option<string>, stamp: Option<MonthDay>,
                                   actual: string, forecast: string, previous: string)

  /** `any(keyword in event_name for keyword in TARGET_KEYWORDS)`. */
  predicate IsTarget(name: string, keywords: set<string>)
  {
    exists kw :: kw in keywords && Contains(name, kw)
  }

  /** `text or '---'`. */
  function OrPlaceholder(s: string): (c: Cell)
    ensures c.Text? && c.text != ""
    ensures s != "" ==> c == Text(s)
    ensures s == "" ==> c == Text("---")
  {
    if s == "" then Text("---") else Text(s)
  }

  /** A scraped row passes the filter: it has an event cell whose name contains a keyword. */
  predicate Kept(r: ScrapedRow, keywords: set<string>)
  {
    r.name.Some? && IsTarget(r.name.value, keywords)
  }

  /** The record appended to `results` for a kept row. */
  function ToRow(r: ScrapedRow): Row
    requires r.name.Some? && r.stamp.Some?
  {
    Row(r.stamp.value, r.name.value, OrPlaceholder(r.actual), r.forecast, OrPlaceholder(r.previous))
  }

  /**
   * The rows the scraping loop collects, in page order, or None when a kept
   * row's timestamp makes `strptime` raise.
   */
  function Collect(raw: seq<ScrapedRow>, keywords: set<string>): (r: Option<seq<Row>>)
    ensures r.Some? <==> forall i :: 0 <= i < |raw| && Kept(raw[i], keywords) ==> raw[i].stamp.Some?
    ensures r.Some? ==> |r.value| <= |raw|
    ensures r.Some? ==> forall k :: 0 <= k < |r.value| ==>
      IsTarget(r.value[k].name, keywords) && r.value[k].actual.Text? && r.value[k].actual.text != ""
      && r.value[k].previous.Text? && r.value[k].previous.text != ""
    ensures r.Some? ==> forall i :: 0 <= i < |raw| && Kept(raw[i], keywords) ==> ToRow(raw[i]) in r.value
    decreases |raw|
  {
    if |raw| == 0 then Some([])
    else
      var last := raw[|raw| - 1];
      match Collect(raw[..|raw| - 1], keywords)
      case None => None
      case Some(rows) =>
        if !Kept(last, keywords) then Some(rows)
        else if last.stamp.None? then None
        else Some(rows + [ToRow(last)])
  }

  /**
   * Collect fixes order and multiplicity: a single row gives its own record
   * when kept (None when its timestamp fails, nothing when dropped), and the
   * rows of `x + y` are those of `x` followed by those of `y`, a failure in
   * either part failing the whole.
   */
  lemma {:induction false} CollectComposes(x: seq<ScrapedRow>, y: seq<ScrapedRow>, keywords: set<string>)
    ensures |x| == 1 ==>
      Collect(x, keywords) ==
        (if !Kept(x[0], keywords) then Some([])
         else if x[0].stamp.None? then None
         else Some([ToRow(x[0])]))
    ensures Collect(x + y, keywords) ==
      match Collect(x, keywords)
      case None => None
      case Some(a) =>
        match Collect(y, keywords)
        case None => None
        case Some(b) => Some(a + b)
    decreases |y|
  {
    if |x| == 1 {
      assert x[..0] == [];
      assert Collect(x[..0], keywords) == Some([]);
      if Kept(x[0], keywords) && x[0].stamp.Some? {
        assert [] + [ToRow(x[0])] == [ToRow(x[0])];
      }
    }
    if |y| == 0 {
      assert x + y == x;
      if Collect(x, keywords).Some? {
        assert Collect(x, keywords).value + [] == Collect(x, keywords).value;
      }
    } else {
      var front := y[..|y| - 1];
      assert (x + y)[..|x + y| - 1] == x + front;
      assert (x + y)[|x + y| - 1] == y[|y| - 1];
      CollectComposes(x, front, keywords);
      match Collect(x, keywords)
      case None =>
      case Some(a) =>
        match Collect(front, keywords)
        case None =>
        case Some(b) =>
          var last := y[|y| - 1];
          if Kept(last, keywords) && last.stamp.Some? {
            assert (a + b) + [ToRow(last)] == a + (b + [ToRow(last)]);
          }
    }
  }

  /** The table `get_filtered_calendar_data` returns: empty when the fetch or a timestamp fails. */
  function CalendarRows(response: Option<seq<ScrapedRow>>, keywords: set<string>): seq<Row>
  {
    match response
    case None => []
    case Some(raw) =>
      match Collect(raw, keywords)
      case None => []
      case Some(rows) => rows
  }

  /** The scraping loop of `get_filtered_calendar_data`, from parsed rows to the filtered table. */
  method GetFilteredCalendarData(response: Option<seq<ScrapedRow>>, keywords: set<string>) returns (rows: seq<Row>)
    ensures rows == CalendarRows(response, keywords)
  {
    if response.None? {
      return [];
    }
    var raw := response.value;
    rows := [];
    for i := 0 to |raw|
      invariant Collect(raw[..i], keywords) == Some(rows)
    {
      assert raw[..i + 1][..i] == raw[..i];
      var r := raw[i];
      if r.name.Some? && IsTarget(r.name.value, keywords) {
        if r.stamp.None? {
          assert Kept(raw[i], keywords);
          return [];
        }
        rows := rows + [ToRow(r)];
      }
    }
    assert raw[..|raw|] == raw;
  }
}
