/**
 * The weekly roadmap health report. The open issues labelled `roadmap` are
 * turned into rows, each with a deadline taken from the project's target date
 * or else from the milestone's due date. Every row is listed once in the full
 * table. A row is also listed under "overdue" when its deadline is before
 * today, under "upcoming" when the deadline falls within the next days, and
 * under "no deadline" when it has none. Each list is sorted by its own key.
 * The issue tracker and the project board are inputs, and today's date is a
 * day number (days since 1970-01-01).
 */
module RoadmapReport {
  import opened Wrappers
  import opened Text
  import opened Calendar
  import opened Sorting

  // ------------------------------------------------------------------ dates

  /** `parse_date`: nothing, blank text or text that is not a date gives no
      date. A timestamp is cut at its first `T`, and the part before it must
      be exactly the `YYYY-MM-DD` text of a date; any other spelling
      ("31.03.2026", "2026/03/31") gives none. */
  function ParseDate(value: Option<string>): (r: Option<Date>)
    ensures r.Some? ==> ValidDate(r.value)
    ensures value.None? || Strip(value.value) == "" ==> r.None?
    ensures r.Some? ==> value.Some? && Split(Strip(value.value), 'T')[0] == IsoDate(r.value)
  {
    if value.None? || value.value == "" then None
    else
      var text := Strip(value.value);
      if text == "" then None
      else if 'T' in text then ParseIsoDate(Split(text, 'T')[0])
      else ParseIsoDate(text)
  }

  lemma IsoDateChars(d: Date)
    requires ValidDate(d)
    ensures var s := IsoDate(d); 'T' !in s && IsDigit(s[0]) && IsDigit(s[9])
  {
    var ys, ms, ds := Padded(d.year, 4), Padded(d.month, 2), Padded(d.day, 2);
    var s := IsoDate(d);
    assert s == ys + "-" + ms + "-" + ds;
    forall k | 0 <= k < |s| ensures s[k] != 'T' {
      if k < 4 { assert s[k] == ys[k]; }
      else if 5 <= k < 7 { assert s[k] == ms[k - 5]; }
      else if 8 <= k { assert s[k] == ds[k - 8]; }
    }
    assert s[0] == ys[0] && s[9] == ds[1];
  }

  /** A date written by `isoformat` reads back as the same date. */
  lemma ParseDateIso(d: Date)
    requires ValidDate(d)
    ensures ParseDate(Some(IsoDate(d))) == Some(d)
  {
    IsoDateChars(d);
    StripFixed(IsoDate(d));
    IsoDateRoundTrip(d);
  }

  /** A timestamp whose date part was written by `isoformat` reads as that
      date, whatever time follows the `T`. */
  lemma ParseDateTimestamp(d: Date, time: string)
    requires ValidDate(d)
    requires time == [] || !IsSpace(time[|time| - 1])
    ensures ParseDate(Some(IsoDate(d) + "T" + time)) == Some(d)
  {
    var s := IsoDate(d);
    var text := s + "T" + time;
    IsoDateChars(d);
    assert text[0] == s[0];
    assert text[|text| - 1] == if time == [] then 'T' else time[|time| - 1];
    StripFixed(text);
    assert text[|s|] == 'T';
    SplitFirst(s, time, 'T');
    IsoDateRoundTrip(d);
  }

  // ------------------------------------------------------------------ issues

  datatype Milestone = Milestone(title: string, dueOn: Option<string>)

  /** An open issue as the issue tracker lists it: the names of its labels
      (a label without a name reads as ""), and its milestone if any. */
  datatype Issue = Issue(number: int, title: string, url: string, labels: seq<string>, milestone: Option<Milestone>)

  /** What the project board says about an issue. A field the board leaves
      empty is `None`, which Python shows as "None". */
  datatype ProjectMeta = ProjectMeta(targetDate: Option<string>, priority: Option<string>,
                                     status: Option<string>, window: Option<string>)

  predicate IsRoadmapIssue(issue: Issue) {
    "roadmap" in issue.labels && "roadmap-report" !in issue.labels
  }

  /** The issues the report covers, in the tracker's order. */
  function RoadmapIssues(items: seq<Issue>): (out: seq<Issue>)
    ensures |out| <= |items|
  {
    if items == [] then []
    else
      var last := items[|items| - 1];
      RoadmapIssues(items[..|items| - 1]) + (if IsRoadmapIssue(last) then [last] else [])
  }

  /** The report covers exactly the issues labelled `roadmap` that are not
      themselves a report. */
  lemma {:induction false} RoadmapIssuesMeaning(items: seq<Issue>)
    ensures forall x :: x in RoadmapIssues(items) <==> x in items && IsRoadmapIssue(x)
  {
    if items != [] {
      var init := items[..|items| - 1];
      RoadmapIssuesMeaning(init);
      assert items == init + [items[|items| - 1]];
    }
  }

  /** The loop of `fetch_open_roadmap_issues` over the tracker's answer. */
  method FetchOpenRoadmapIssues(payload: seq<Issue>) returns (out: seq<Issue>)
    ensures out == RoadmapIssues(payload)
  {
    out := [];
    var i := 0;
    while i < |payload|
      invariant 0 <= i <= |payload|
      invariant out == RoadmapIssues(payload[..i])
    {
      assert payload[..i + 1][..i] == payload[..i];
      var item := payload[i];
      i := i + 1;
      if "roadmap" !in item.labels {
        continue;
      }
      if "roadmap-report" in item.labels {
        continue;
      }
      out := out + [item];
    }
    assert payload[..i] == payload;
  }

  // -------------------------------------------------------------------- rows

  /** The deadline: the target date from the board, else the milestone's due date. */
  function DeadlineOf(target: Option<Date>, due: Option<Date>): Option<Date> {
    if target.Some? then target else due
  }

  /** The "Quelle" column: which of the two dates the deadline came from. */
  function SourceLabel(target: Option<Date>, due: Option<Date>): (r: string)
    ensures r == "-" <==> DeadlineOf(target, due).None?
    ensures r == "target date" <==> target.Some?
    ensures r == "milestone" ==> DeadlineOf(target, due) == due && target.None?
  {
    if target.Some? then "target date" else if due.Some? then "milestone" else "-"
  }

  /** A board field as the f-string shows it: Python's `None` reads "None". */
  function Shown(v: Option<string>): string {
    if v.Some? then v.value else "None"
  }

  /** The priority shown and sorted on: "-" when the board has none, whether
      the issue is missing from the board or its priority field is empty. */
  function PriorityText(meta: Option<ProjectMeta>): (r: string)
    ensures meta.Some? && meta.value.priority.Some? ==> r == meta.value.priority.value
    ensures meta.None? || meta.value.priority.None? ==> r == "-"
  {
    if meta.Some? && meta.value.priority.Some? then meta.value.priority.value else "-"
  }

  /** One line of the report. `deadline` is the ISO date or "-", as the
      source keeps it; `daysLeft` is the signed distance to today. */
  datatype Row = Row(number: int, title: string, url: string, status: string, priority: string,
                     window: string, milestone: string, deadline: string, source: string,
                     daysLeft: Option<int>)

  function MetaOf(issue: Issue, metas: map<int, ProjectMeta>): Option<ProjectMeta> {
    if issue.number in metas then Some(metas[issue.number]) else None
  }

  function TargetOf(issue: Issue, metas: map<int, ProjectMeta>): Option<Date> {
    var meta := MetaOf(issue, metas);
    if meta.Some? then ParseDate(meta.value.targetDate) else None
  }

  function DueOf(issue: Issue): Option<Date> {
    if issue.milestone.Some? then ParseDate(issue.milestone.value.dueOn) else None
  }

  /** The row `build_report` makes for an issue on the given day. The Prio
      cell is the corrected `PriorityText`: "-" for an issue on the board
      whose priority field is empty, where the program as written shows
      "None" (see `AsWrittenPriority`). */
  function RowOf(issue: Issue, metas: map<int, ProjectMeta>, today: int): (row: Row)
    ensures row.number == issue.number && row.title == issue.title && row.url == issue.url
    ensures row.priority == PriorityText(MetaOf(issue, metas))
    ensures row.deadline == "-" <==> DeadlineOf(TargetOf(issue, metas), DueOf(issue)).None?
    ensures row.source == "-" <==> row.deadline == "-"
    ensures row.daysLeft.None? <==> row.deadline == "-"
    ensures var d := DeadlineOf(TargetOf(issue, metas), DueOf(issue));
            d.Some? ==> row.deadline == IsoDate(d.value) && row.daysLeft == Some(EpochDay(d.value) - today)
  {
    var meta := MetaOf(issue, metas);
    var target := TargetOf(issue, metas);
    var due := DueOf(issue);
    var deadline := DeadlineOf(target, due);
    Row(issue.number, issue.title, issue.url,
        if meta.Some? then Shown(meta.value.status) else "Todo",
        PriorityText(meta),
        if meta.Some? then Shown(meta.value.window) else "-",
        if issue.milestone.Some? then issue.milestone.value.title else "-",
        if deadline.Some? then IsoDate(deadline.value) else "-",
        SourceLabel(target, due),
        if deadline.Some? then Some(EpochDay(deadline.value) - today) else None)
  }

  function RowsOf(issues: seq<Issue>, metas: map<int, ProjectMeta>, today: int): (rows: seq<Row>)
    ensures |rows| == |issues|
    ensures forall i :: 0 <= i < |issues| ==> rows[i] == RowOf(issues[i], metas, today)
  {
    seq(|issues|, i requires 0 <= i < |issues| => RowOf(issues[i], metas, today))
  }

  // ----------------------------------------------------------------- buckets

  datatype Bucket = Overdue | Upcoming | NoDeadline | Later

  /** Which list a row joins besides the full table: overdue before today,
      upcoming from today up to `today + upcomingDays`, and no list when the
      deadline is later still. */
  function BucketOf(row: Row, upcomingDays: int): (b: Bucket)
    ensures b == NoDeadline <==> row.daysLeft.None?
    ensures b == Overdue <==> row.daysLeft.Some? && row.daysLeft.value < 0
    ensures b == Upcoming <==> row.daysLeft.Some? && 0 <= row.daysLeft.value <= upcomingDays
  {
    if row.daysLeft.None? then NoDeadline
    else if row.daysLeft.value < 0 then Overdue
    else if row.daysLeft.value <= upcomingDays then Upcoming
    else Later
  }

  /** The rows in one bucket, in issue order. */
  function InBucket(rows: seq<Row>, upcomingDays: int, b: Bucket): (out: seq<Row>)
    ensures |out| <= |rows|
  {
    if rows == [] then []
    else
      var last := rows[|rows| - 1];
      InBucket(rows[..|rows| - 1], upcomingDays, b) + (if BucketOf(last, upcomingDays) == b then [last] else [])
  }

  lemma {:induction false} InBucketMeaning(rows: seq<Row>, upcomingDays: int, b: Bucket)
    ensures forall r :: r in InBucket(rows, upcomingDays, b) <==> r in rows && BucketOf(r, upcomingDays) == b
  {
    if rows != [] {
      var init := rows[..|rows| - 1];
      InBucketMeaning(init, upcomingDays, b);
      assert rows == init + [rows[|rows| - 1]];
    }
  }

  /** The four buckets split the rows: every row is counted in exactly one of them. */
  lemma {:induction false} BucketsPartition(rows: seq<Row>, n: int)
    ensures |InBucket(rows, n, Overdue)| + |InBucket(rows, n, Upcoming)|
            + |InBucket(rows, n, NoDeadline)| + |InBucket(rows, n, Later)| == |rows|
  {
    if rows != [] {
      BucketsPartition(rows[..|rows| - 1], n);
    }
  }

  // ------------------------------------------------------------------- order

  /** `<=` on the full table's key `(deadline == "-", deadline, priority, number)`:
      dated rows first, then by the deadline's text, the priority's text and
      the issue number. */
  predicate AllRowsLe(a: Row, b: Row) {
    if (a.deadline == "-") != (b.deadline == "-") then b.deadline == "-"
    else if a.deadline != b.deadline then LexLe(a.deadline, b.deadline)
    else if a.priority != b.priority then LexLe(a.priority, b.priority)
    else a.number <= b.number
  }

  /** `<=` on the key `(deadline, number)` of the overdue and upcoming lists. */
  predicate DeadlineLe(a: Row, b: Row) {
    if a.deadline != b.deadline then LexLe(a.deadline, b.deadline) else a.number <= b.number
  }

  /** `<=` on the key `number` of the list without deadline. */
  predicate NumberLe(a: Row, b: Row) {
    a.number <= b.number
  }

  lemma LexLeOrdered(a: string, b: string, c: string)
    requires a != b && LexLe(a, b) && b != c && LexLe(b, c)
    ensures a != c && LexLe(a, c)
  {
    LexLeTransitive(a, b, c);
    if a == c { LexLeAntisymmetric(a, b); }
  }

  lemma StringStep(a: string, b: string)
    ensures a == b || LexLe(a, b) || LexLe(b, a)
  {
    LexLeTotal(a, b);
  }

  /** The full table's key is a total preorder, so sorting by it always succeeds. */
  lemma AllRowsOrder()
    ensures Total(AllRowsLe) && Transitive(AllRowsLe)
  {
    forall a: Row, b: Row ensures AllRowsLe(a, b) || AllRowsLe(b, a) {
      LexLeTotal(a.deadline, b.deadline);
      LexLeTotal(a.priority, b.priority);
    }
    forall a: Row, b: Row, c: Row | AllRowsLe(a, b) && AllRowsLe(b, c) ensures AllRowsLe(a, c) {
      if a.deadline != b.deadline && b.deadline != c.deadline
         && (a.deadline == "-") == (b.deadline == "-") && (b.deadline == "-") == (c.deadline == "-") {
        LexLeOrdered(a.deadline, b.deadline, c.deadline);
      }
      if a.deadline == b.deadline && b.deadline == c.deadline
         && a.priority != b.priority && b.priority != c.priority {
        LexLeOrdered(a.priority, b.priority, c.priority);
      }
    }
  }

  lemma DeadlineOrder()
    ensures Total(DeadlineLe) && Transitive(DeadlineLe)
  {
    forall a: Row, b: Row ensures DeadlineLe(a, b) || DeadlineLe(b, a) {
      LexLeTotal(a.deadline, b.deadline);
    }
    forall a: Row, b: Row, c: Row | DeadlineLe(a, b) && DeadlineLe(b, c) ensures DeadlineLe(a, c) {
      if a.deadline != b.deadline && b.deadline != c.deadline {
        LexLeOrdered(a.deadline, b.deadline, c.deadline);
      }
    }
  }

  // ------------------------------------------------------------------ report

  /** The four tables of the report and the number of open roadmap issues in
      its summary. */
  datatype Report = Report(openIssues: nat, overdue: seq<Row>, upcoming: seq<Row>,
                           noDeadline: seq<Row>, allRows: seq<Row>)

  /** What `build_report` lists: the rows bucketed in issue order, then each
      list sorted stably by its key. */
  function ReportOf(issues: seq<Issue>, metas: map<int, ProjectMeta>, today: int, upcomingDays: int): Report {
    var rows := RowsOf(issues, metas, today);
    Report(|issues|,
           SortBy(InBucket(rows, upcomingDays, Overdue), DeadlineLe),
           SortBy(InBucket(rows, upcomingDays, Upcoming), DeadlineLe),
           SortBy(InBucket(rows, upcomingDays, NoDeadline), NumberLe),
           SortBy(rows, AllRowsLe))
  }

  /** The summary counts agree with the tables: the full table has one row
      per issue, and the three lists together hold no more rows than it
      (`ReportLists` shows they hold different rows). */
  lemma ReportCounts(issues: seq<Issue>, metas: map<int, ProjectMeta>, today: int, n: int)
    ensures var r := ReportOf(issues, metas, today, n);
            && r.openIssues == |r.allRows|
            && |r.overdue| + |r.upcoming| + |r.noDeadline| <= r.openIssues
  {
    BucketsPartition(RowsOf(issues, metas, today), n);
  }

  /** Each list holds exactly the rows of its bucket: no deadline, a deadline
      before today, or one from today to `today + n`. */
  lemma ReportLists(issues: seq<Issue>, metas: map<int, ProjectMeta>, today: int, n: int)
    ensures var r := ReportOf(issues, metas, today, n);
            && (forall x :: x in r.allRows <==> x in RowsOf(issues, metas, today))
            && (forall x :: x in r.overdue <==> x in r.allRows && x.daysLeft.Some? && x.daysLeft.value < 0)
            && (forall x :: x in r.upcoming <==> x in r.allRows && x.daysLeft.Some? && 0 <= x.daysLeft.value <= n)
            && (forall x :: x in r.noDeadline <==> x in r.allRows && x.daysLeft.None?)
  {
    var rows := RowsOf(issues, metas, today);
    var r := ReportOf(issues, metas, today, n);
    InBucketMeaning(rows, n, Overdue);
    InBucketMeaning(rows, n, Upcoming);
    InBucketMeaning(rows, n, NoDeadline);
    assert forall x :: x in r.allRows <==> x in multiset(rows);
    assert forall x :: x in r.overdue <==> x in multiset(InBucket(rows, n, Overdue));
    assert forall x :: x in r.upcoming <==> x in multiset(InBucket(rows, n, Upcoming));
    assert forall x :: x in r.noDeadline <==> x in multiset(InBucket(rows, n, NoDeadline));
  }

  /** Each list is in its key's order, and the full table puts every row with
      a deadline before every row without one. */
  lemma ReportSorted(issues: seq<Issue>, metas: map<int, ProjectMeta>, today: int, n: int)
    ensures var r := ReportOf(issues, metas, today, n);
            && SortedBy(r.overdue, DeadlineLe) && SortedBy(r.upcoming, DeadlineLe)
            && SortedBy(r.noDeadline, NumberLe) && SortedBy(r.allRows, AllRowsLe)
            && forall i, j ::
                 (0 <= i < |r.allRows| && 0 <= j < |r.allRows| && r.allRows[i].deadline != "-"
                  && r.allRows[j].deadline == "-") ==> i < j
  {
    var rows := RowsOf(issues, metas, today);
    DeadlineOrder();
    AllRowsOrder();
    assert Total(NumberLe) && Transitive(NumberLe);
    SortBySorted(InBucket(rows, n, Overdue), DeadlineLe);
    SortBySorted(InBucket(rows, n, Upcoming), DeadlineLe);
    SortBySorted(InBucket(rows, n, NoDeadline), NumberLe);
    SortBySorted(rows, AllRowsLe);
  }

  /** Appends the rows of one more issue to the lists `build_report` fills. */
  lemma ReportStep(issues: seq<Issue>, i: nat, metas: map<int, ProjectMeta>, today: int, n: int)
    requires i < |issues|
    ensures var rows, row := RowsOf(issues[..i], metas, today), RowOf(issues[i], metas, today);
            && RowsOf(issues[..i + 1], metas, today) == rows + [row]
            && (forall b :: InBucket(rows + [row], n, b)
                            == InBucket(rows, n, b) + (if BucketOf(row, n) == b then [row] else []))
  {
    var rows := RowsOf(issues[..i + 1], metas, today);
    assert rows == RowsOf(issues[..i], metas, today) + [RowOf(issues[i], metas, today)];
  }

  /** `build_report`'s loop and sorts. */
  method BuildReport(issues: seq<Issue>, metas: map<int, ProjectMeta>, today: int, upcomingDays: int)
    returns (report: Report)
    ensures report == ReportOf(issues, metas, today, upcomingDays)
  {
    var overdue, upcoming, noDeadline, allRows := [], [], [], [];
    var i := 0;
    while i < |issues|
      invariant 0 <= i <= |issues|
      invariant allRows == RowsOf(issues[..i], metas, today)
      invariant overdue == InBucket(allRows, upcomingDays, Overdue)
      invariant upcoming == InBucket(allRows, upcomingDays, Upcoming)
      invariant noDeadline == InBucket(allRows, upcomingDays, NoDeadline)
    {
      ReportStep(issues, i, metas, today, upcomingDays);
      var row := RowOf(issues[i], metas, today);
      allRows := allRows + [row];
      if row.daysLeft.None? {
        noDeadline := noDeadline + [row];
      } else if row.daysLeft.value < 0 {
        overdue := overdue + [row];
      } else if row.daysLeft.value <= upcomingDays {
        upcoming := upcoming + [row];
      }
      i := i + 1;
    }
    assert issues[..i] == issues;
    report := Report(|issues|, SortBy(overdue, DeadlineLe), SortBy(upcoming, DeadlineLe),
                     SortBy(noDeadline, NumberLe), SortBy(allRows, AllRowsLe));
  }

  // ------------------------------------------------------------------ tables

  /** The title as the table shows it: every `|` becomes `/`. */
  function TitleCell(title: string): (r: string)
    ensures |r| == |title| && '|' !in r
    ensures forall i :: 0 <= i < |title| && title[i] != '|' ==> r[i] == title[i]
  {
    ReplaceChar(title, '|', '/')
  }

  function DaysCell(daysLeft: Option<int>): string {
    if daysLeft.None? then "-" else IntToString(daysLeft.value)
  }

  /** The eight cells of a row of a table, left to right. */
  function Cells(row: Row): (cells: seq<string>)
    ensures |cells| == 8 && cells[1] == TitleCell(row.title)
  {
    ["[#" + IntToString(row.number) + "](" + row.url + ")", TitleCell(row.title), row.status,
     row.priority, row.window, row.deadline, row.source, DaysCell(row.daysLeft)]
  }

  function Spaced(cells: seq<string>): (r: seq<string>)
    ensures |r| == |cells|
    ensures forall i :: 0 <= i < |cells| ==> r[i] == " " + cells[i] + " "
  {
    if cells == [] then [] else [" " + cells[0] + " "] + Spaced(cells[1..])
  }

  /** A table line: the cells between `|`s, each with a space on both sides. */
  function TableLine(row: Row): string {
    Join([""] + Spaced(Cells(row)) + [""], "|")
  }

  /** Whatever the title holds, a table line has exactly the row's eight
      cells between its `|`s, provided the other cells hold no `|`. */
  lemma TableLineCells(row: Row)
    requires forall i :: 0 <= i < 8 && i != 1 ==> '|' !in Cells(row)[i]
    ensures Split(TableLine(row), '|') == [""] + Spaced(Cells(row)) + [""]
    ensures |Split(TableLine(row), '|')| == 10
  {
    var cells := Cells(row);
    var parts := [""] + Spaced(cells) + [""];
    forall i | 0 <= i < |parts| ensures '|' !in parts[i] {
      if 1 <= i <= 8 {
        assert parts[i] == " " + cells[i - 1] + " ";
      }
    }
    SplitJoin(parts, '|');
  }

  // ---------------------------------------------------------------- as written

  /** A value in the full table's sort key as the source holds it: the
      priority is Python's `None` when the board's priority field is empty. */
  datatype PyText = PyNone | PyStr(s: string)

  /** The priority `meta.get("priority", "-")` gives: "-" only when the issue
      is not on the board at all. */
  function AsWrittenPriority(meta: Option<ProjectMeta>): (p: PyText)
    ensures meta.Some? && meta.value.priority.None? ==> p == PyNone
    ensures meta.None? ==> p == PyStr("-")
  {
    if meta.None? then PyStr("-")
    else if meta.value.priority.Some? then PyStr(meta.value.priority.value) else PyNone
  }

  /** Python's `<` between the keys `(undated, deadline, priority, number)`:
      the first differing components are compared, and comparing `None` with a
      string raises `TypeError`. */
  function AsWrittenKeyLess(ua: bool, da: string, pa: PyText, na: int,
                            ub: bool, db: string, pb: PyText, nb: int): (r: Result<bool>)
    ensures pa == pb ==> r.Ok?
  {
    if ua != ub then Ok(ub)
    else if da != db then Ok(da != db && LexLe(da, db))
    else if pa != pb then
      if pa.PyNone? || pb.PyNone? then Err("TypeError")
      else Ok(LexLe(pa.s, pb.s))
    else Ok(na < nb)
  }

  /** Two issues without deadline, one on the board with an empty priority,
      the other not on the board: the key comparison `sort` has to make
      between them raises, so the report is never written. With the
      priority read as "-" (`PriorityText`), the two rows compare. */
  lemma MissingPriorityBreaksSort()
    ensures var a := Issue(1, "A", "u1", ["roadmap"], None);
            var b := Issue(2, "B", "u2", ["roadmap"], None);
            var metas := map[1 := ProjectMeta(None, None, Some("Todo"), None)];
            && AsWrittenPriority(MetaOf(a, metas)) == PyNone
            && AsWrittenPriority(MetaOf(b, metas)) == PyStr("-")
            && RowOf(a, metas, 0).deadline == "-" && RowOf(b, metas, 0).deadline == "-"
            && AsWrittenKeyLess(true, "-", PyNone, 1, true, "-", PyStr("-"), 2) == Err("TypeError")
            && AsWrittenKeyLess(true, "-", PyStr("-"), 2, true, "-", PyNone, 1) == Err("TypeError")
            && AllRowsLe(RowOf(a, metas, 0), RowOf(b, metas, 0))
  {
  }
}
