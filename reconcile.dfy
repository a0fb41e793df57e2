/**
 * Steps 2 and 3 of `main` in test.py and the final table: infer each
 * matched event's year, skip events after today, overwrite Actual and
 * Previous with FRED values in place, and drop exact duplicate rows keeping
 * first occurrences.  "Today" and the FRED responses are inputs.
 */
module Reconcile {
  import opened Wrappers
  import opened Registry
  import opened Metric
  import opened Calendar
  import opened Matcher

  /** A calendar date, as `datetime.date` holds it. */
  datatype Date = Date(year: int, month: int, day: int)

  predicate IsLeapYear(y: int)
  {
    y % 4 == 0 && (y % 100 != 0 || y % 400 == 0)
  }

  function DaysInMonth(y: int, m: int): int
    requires 1 <= m <= 12
  {
    if m == 2 then (if IsLeapYear(y) then 29 else 28)
    else if m == 4 || m == 6 || m == 9 || m == 11 then 30
    else 31
  }

  /** A date `strptime` accepts for `f"{year}-{date_str}"`: '%Y' reads exactly four digits. */
  predicate ValidDate(d: Date)
  {
    1000 <= d.year <= 9999 && 1 <= d.month <= 12 && 1 <= d.day <= DaysInMonth(d.year, d.month)
  }

  /** `a > b` on dates. */
  predicate After(a: Date, b: Date)
  {
    a.year > b.year || (a.year == b.year && (a.month > b.month || (a.month == b.month && a.day > b.day)))
  }

  /** `today.year if event_month <= today.month else today.year - 1`. */
  function EventYear(md: MonthDay, today: Date): int
  {
    if md.month <= today.month then today.year else today.year - 1
  }

  /** What the date step does with a matched row: go on, skip it, or raise in `strptime`. */
  datatype Gate = Past | Future | BadDate

  /**
   * The date step of the override loop.  Because a later month is put in
   * the previous year, only an event later in today's own month is skipped.
   */
  function DateGate(md: MonthDay, today: Date): (g: Gate)
    requires ValidDate(today)
    ensures g == BadDate <==> !ValidDate(Date(EventYear(md, today), md.month, md.day))
    ensures g == Future <==> g != BadDate && md.month == today.month && md.day > today.day
  {
    var d := Date(EventYear(md, today), md.month, md.day);
    if !ValidDate(d) then BadDate
    else if After(d, today) then Future
    else Past
  }

  /** An event dated next month is put in last year and so is not skipped. */
  lemma NextMonthIsNotSkipped()
    ensures DateGate(MonthDay(2, 5), Date(2025, 1, 28)) == Past
  {
  }

  /** A row is overwritten: it matched, it is not after today, and the fetch returned values. */
  predicate Overrides(row: Row, t: Option<Target>, today: Date, response: Option<seq<RawObs>>, reg: seq<SeriesInfo>)
    requires ValidDate(today)
  {
    t.Some? && DateGate(row.date, today) == Past
    && GetFredData(response, t.value.id, t.value.calculation, reg).Some?
  }

  /** One turn of the override loop: the new row, or None where `strptime` raises. */
  function ReconcileRow(row: Row, t: Option<Target>, today: Date, response: Option<seq<RawObs>>, reg: seq<SeriesInfo>)
    : (r: Option<Row>)
    requires ValidDate(today)
    ensures r.None? <==> t.Some? && DateGate(row.date, today) == BadDate
    ensures r.Some? ==> r.value.date == row.date && r.value.name == row.name && r.value.forecast == row.forecast
    ensures r.Some? && !Overrides(row, t, today, response, reg) ==> r.value == row
    ensures r.Some? && Overrides(row, t, today, response, reg) ==>
      var fv := GetFredData(response, t.value.id, t.value.calculation, reg).value;
      r.value.actual == Fred(fv.actual) && r.value.previous == Fred(fv.previous)
  {
    match t
    case None => Some(row)
    case Some(target) =>
      match DateGate(row.date, today)
      case BadDate => None
      case Future => Some(row)
      case Past =>
        match GetFredData(response, target.id, target.calculation, reg)
        case None => Some(row)
        case Some(fv) => Some(row.(actual := Fred(fv.actual), previous := Fred(fv.previous)))
  }

  /**
   * Actual and Previous of a scraped row change together or not at all,
   * and they change exactly when the row is overwritten; an event after
   * today keeps its scraped figures.
   */
  lemma OverrideAllOrNothing(row: Row, t: Option<Target>, today: Date,
                             response: Option<seq<RawObs>>, reg: seq<SeriesInfo>)
    requires ValidDate(today)
    requires row.actual.Text? && row.previous.Text?
    requires ReconcileRow(row, t, today, response, reg).Some?
    ensures var r := ReconcileRow(row, t, today, response, reg).value;
            (r.actual != row.actual <==> Overrides(row, t, today, response, reg))
            && (r.previous != row.previous <==> Overrides(row, t, today, response, reg))
    ensures t.Some? && DateGate(row.date, today) == Future ==> ReconcileRow(row, t, today, response, reg) == Some(row)
  {
  }

  /** The override loop of `main`, writing the 實際 and 前期 cells of `rows` in place. */
  method ReconcileRows(rows: array<Row>, targets: seq<Option<Target>>, today: Date,
                       responses: seq<Option<seq<RawObs>>>, reg: seq<SeriesInfo>) returns (ok: bool)
    requires ValidDate(today)
    requires |targets| == rows.Length && |responses| == rows.Length
    modifies rows
    ensures ok <==> forall i :: 0 <= i < rows.Length ==>
      ReconcileRow(old(rows[i]), targets[i], today, responses[i], reg).Some?
    ensures ok ==> forall i :: 0 <= i < rows.Length ==>
      ReconcileRow(old(rows[i]), targets[i], today, responses[i], reg) == Some(rows[i])
  {
    for i := 0 to rows.Length
      invariant forall j :: 0 <= j < i ==> ReconcileRow(old(rows[j]), targets[j], today, responses[j], reg) == Some(rows[j])
      invariant forall j :: i <= j < rows.Length ==> rows[j] == old(rows[j])
    {
      if targets[i].Some? {
        var gate := DateGate(rows[i].date, today);
        if gate == BadDate {
          assert ReconcileRow(old(rows[i]), targets[i], today, responses[i], reg).None?;
          return false;
        }
        if gate == Past {
          var fv := FetchFredValues(responses[i], targets[i].value.id, targets[i].value.calculation, reg);
          if fv.Some? {
            rows[i] := rows[i].(actual := Fred(fv.value.actual), previous := Fred(fv.value.previous));
          }
        }
      }
    }
    ok := true;
  }

  /** The position of the first occurrence of `x` in `s`. */
  function FirstIndex<T(==)>(s: seq<T>, x: T): (k: nat)
    requires x in s
    ensures k < |s| && s[k] == x && x !in s[..k]
  {
    if s[0] == x then 0
    else
      var k := FirstIndex(s[1..], x);
      assert s[..k + 1] == [s[0]] + s[1..][..k];
      k + 1
  }

  /** A first occurrence in a prefix is the first occurrence in the whole sequence. */
  lemma {:induction false} FirstIndexPrefix<T>(s: seq<T>, n: nat, x: T)
    requires n <= |s| && x in s[..n]
    ensures FirstIndex(s, x) == FirstIndex(s[..n], x)
  {
    var k := FirstIndex(s[..n], x);
    assert s[..n][..k] == s[..k];
  }

  /** `drop_duplicates()`: exact duplicates removed, first occurrences kept in order. */
  function Distinct<T(==)>(s: seq<T>): (r: seq<T>)
    ensures forall i :: 0 <= i < |r| ==> r[i] in s
    ensures forall x :: x in s ==> x in r
    ensures forall i, j :: 0 <= i < j < |r| ==> r[i] != r[j]
    ensures forall i, j :: 0 <= i < j < |r| ==> FirstIndex(s, r[i]) < FirstIndex(s, r[j])
    decreases |s|
  {
    if |s| == 0 then []
    else
      var p := s[..|s| - 1];
      var x := s[|s| - 1];
      var d := Distinct(p);
      DistinctStep(s, d);
      if x in p then d else d + [x]
  }

  /** Helper for Distinct: first occurrences in the prefix keep their positions. */
  lemma {:induction false} DistinctStep<T>(s: seq<T>, d: seq<T>)
    requires |s| > 0
    requires forall i :: 0 <= i < |d| ==> d[i] in s[..|s| - 1]
    requires forall i, j :: 0 <= i < j < |d| ==> FirstIndex(s[..|s| - 1], d[i]) < FirstIndex(s[..|s| - 1], d[j])
    ensures forall i, j :: 0 <= i < j < |d| ==> FirstIndex(s, d[i]) < FirstIndex(s, d[j])
    ensures s[|s| - 1] !in s[..|s| - 1] ==> forall i :: 0 <= i < |d| ==> FirstIndex(s, d[i]) < |s| - 1
    ensures s[|s| - 1] !in s[..|s| - 1] ==> FirstIndex(s, s[|s| - 1]) == |s| - 1
  {
    var n := |s| - 1;
    forall i | 0 <= i < |d|
      ensures FirstIndex(s, d[i]) == FirstIndex(s[..n], d[i])
    {
      FirstIndexPrefix(s, n, d[i]);
    }
    if s[n] !in s[..n] {
      var k := FirstIndex(s, s[n]);
    }
  }

  /** What a run ends with: the "no data" message, an uncaught `strptime` error, or the table. */
  datatype Outcome = NoData | Crashed | Table(rows: seq<Row>)

  /** Every calendar row after one turn of the override loop, annotated against `reg`. */
  function ReconcileAll(calendar: seq<Row>, today: Date, fetch: nat -> Option<seq<RawObs>>, reg: seq<SeriesInfo>)
    : seq<Option<Row>>
    requires ValidDate(today)
  {
    seq(|calendar|, i requires 0 <= i < |calendar| =>
      ReconcileRow(calendar[i], Annotate(calendar[i].name, reg), today, fetch(i), reg))
  }

  /** No turn of the loop raised. */
  predicate Completed(rs: seq<Option<Row>>)
  {
    forall i :: 0 <= i < |rs| ==> rs[i].Some?
  }

  function Values(rs: seq<Option<Row>>): seq<Row>
    requires Completed(rs)
  {
    seq(|rs|, i requires 0 <= i < |rs| => rs[i].value)
  }

  /**
   * The whole of `main` between fetching and rendering; `main` runs it with
   * `reg` = SeriesMapping and `keywords` = TargetKeywords, and `fetch(i)` is
   * FRED's answer for the i-th row of the filtered table.
   */
  function Pipeline(response: Option<seq<ScrapedRow>>, today: Date, fetch: nat -> Option<seq<RawObs>>,
                    reg: seq<SeriesInfo>, keywords: set<string>): Outcome
    requires ValidDate(today)
  {
    var calendar := CalendarRows(response, keywords);
    if |calendar| == 0 then NoData
    else
      var rs := ReconcileAll(calendar, today, fetch, reg);
      if !Completed(rs) then Crashed else Table(Distinct(Values(rs)))
  }

  /**
   * Facts about a run: no data exactly when the filtered calendar is empty;
   * a table has no duplicate rows, and every filtered row whose event is
   * later in today's month (or that matched nothing) is in it unchanged.
   */
  lemma PipelineFacts(response: Option<seq<ScrapedRow>>, today: Date,
                      fetch: nat -> Option<seq<RawObs>>, reg: seq<SeriesInfo>,
                      keywords: set<string>, i: nat)
    requires ValidDate(today)
    ensures Pipeline(response, today, fetch, reg, keywords) == NoData <==> CalendarRows(response, keywords) == []
    ensures Pipeline(response, today, fetch, reg, keywords).Table? ==>
      var t := Pipeline(response, today, fetch, reg, keywords).rows;
      forall a, b :: 0 <= a < b < |t| ==> t[a] != t[b]
    ensures Pipeline(response, today, fetch, reg, keywords).Table? && i < |CalendarRows(response, keywords)| ==>
      var c := CalendarRows(response, keywords)[i];
      (Annotate(c.name, reg).None? || DateGate(c.date, today) == Future) ==>
      c in Pipeline(response, today, fetch, reg, keywords).rows
  {
    var calendar := CalendarRows(response, keywords);
    if Pipeline(response, today, fetch, reg, keywords).Table? && i < |calendar| {
      var c := calendar[i];
      var rs := ReconcileAll(calendar, today, fetch, reg);
      if Annotate(c.name, reg).None? || DateGate(c.date, today) == Future {
        assert rs[i] == ReconcileRow(c, Annotate(c.name, reg), today, fetch(i), reg);
        assert !Overrides(c, Annotate(c.name, reg), today, fetch(i), reg);
        assert rs[i] == Some(c);
        assert Values(rs)[i] == c;
        assert c in Values(rs);
      }
    }
  }

  /** `main` from the scraped page to the final table. */
  method Run(response: Option<seq<ScrapedRow>>, today: Date, fetch: nat -> Option<seq<RawObs>>,
             reg: seq<SeriesInfo>, keywords: set<string>) returns (out: Outcome)
    requires ValidDate(today)
    ensures out == Pipeline(response, today, fetch, reg, keywords)
  {
    var calendar := GetFilteredCalendarData(response, keywords);
    if |calendar| == 0 {
      return NoData;
    }
    var rows := new Row[|calendar|](i requires 0 <= i < |calendar| => calendar[i]);
    var targets := AnnotateRows(rows, reg);
    var responses := seq(rows.Length, i requires 0 <= i < rows.Length => fetch(i));
    assert forall i :: 0 <= i < rows.Length ==> rows[i] == calendar[i];
    var ok := ReconcileRows(rows, targets, today, responses, reg);
    ghost var rs := ReconcileAll(calendar, today, fetch, reg);
    assert forall i :: 0 <= i < |rs| ==> rs[i] == ReconcileRow(calendar[i], targets[i], today, responses[i], reg);
    if !ok {
      return Crashed;
    }
    assert rows[..] == Values(rs);
    out := Table(Distinct(rows[..]));
  }
}
