/** The month report `getFormattedAvailability` prints: the day component of
    every queried row, grouped by status in the fixed order available,
    booked, blocked, maintenance. */
module Report {
  import opened Results
  import opened Text
  import opened Ledger

  /** `date.split('-')[2]`; a date with fewer than two dashes has no day
      component, and `Array.prototype.join` prints the missing one as "". */
  function DayOf(date: string): string {
    match Part(Split(date, '-'), 2)
    case Some(d) => d
    case None => ""
  }

  /** The day component of a stored `year-MM-DD` date is `DD`. */
  lemma DayOfDate(year: string, month: string, day: string)
    requires '-' !in year && '-' !in month && '-' !in day
    ensures DayOf(year + "-" + month + "-" + day) == day
  {
    var parts := [year, month, day];
    assert Join(parts[2..], "-") == day;
    assert Join(parts[1..], "-") == month + "-" + day;
    assert Join(parts, "-") == year + "-" + month + "-" + day;
    SplitJoin(parts, '-');
  }

  /** The day components of the rows whose status is `status`, in row order
      (what the `switch` pushes into one group's array). */
  function DaysWith(rows: seq<Row>, status: Status): (days: seq<string>)
    ensures |days| <= |rows|
  {
    if rows == [] then []
    else
      var last := rows[|rows| - 1];
      DaysWith(rows[..|rows| - 1], status) + (if ParseStatus(last.status) == Some(status) then [DayOf(last.date)] else [])
  }

  /** A group lists the day of every row with its status, and nothing else. */
  lemma {:induction false} DaysWithMembers(rows: seq<Row>, status: Status, d: string)
    ensures d in DaysWith(rows, status) <==> exists x :: x in rows && x.status == StatusName(status) && DayOf(x.date) == d
  {
    if rows != [] {
      var init, last := rows[..|rows| - 1], rows[|rows| - 1];
      assert forall x :: x in rows <==> x in init || x == last by {
        assert rows == init + [last];
      }
      DaysWithMembers(init, status, d);
      ParseStatusIff(last.status, status);
    }
  }

  /** One more row extends exactly one group, or none. */
  lemma DaysWithStep(rows: seq<Row>, i: nat, status: Status)
    requires i < |rows|
    ensures DaysWith(rows[..i + 1], status) ==
      DaysWith(rows[..i], status) + (if ParseStatus(rows[i].status) == Some(status) then [DayOf(rows[i].date)] else [])
  {
    assert rows[..i + 1][..i] == rows[..i];
  }

  /** Regrouping the appended report lines. */
  lemma AppendLines(h: string, a: string, b: string, c: string, d: string)
    ensures h + a + b + c + d == h + (a + b + c + d)
  {
  }

  /** How many rows carry a status the report knows. */
  function KnownCount(rows: seq<Row>): nat {
    if rows == [] then 0
    else KnownCount(rows[..|rows| - 1]) + (if ParseStatus(rows[|rows| - 1].status).Some? then 1 else 0)
  }

  /** Every row with a known status lands in exactly one group; rows with any
      other status are silently dropped (the `switch` has no default). */
  lemma {:induction false} GroupsPartition(rows: seq<Row>)
    ensures |DaysWith(rows, Available)| + |DaysWith(rows, Booked)|
          + |DaysWith(rows, Blocked)| + |DaysWith(rows, Maintenance)| == KnownCount(rows)
  {
    if rows != [] {
      GroupsPartition(rows[..|rows| - 1]);
    }
  }

  /** One report line, present only for a non-empty group. */
  function GroupLine(title: string, days: seq<string>): (line: string)
    ensures line == [] <==> days == []
    ensures line != [] ==> line[|line| - 1] == '\n'
  {
    if |days| > 0 then "- " + title + " dates: " + Join(days, ", ") + "\n" else ""
  }

  function Header(month: string, year: string): string {
    "Availability for " + month + "/" + year + ":"
  }

  function EmptyReport(month: string, year: string): string {
    "No availability information found for " + month + "/" + year + "."
  }

  /** The untrimmed report body: one line per non-empty group, in the fixed order. */
  function Body(rows: seq<Row>): string {
    GroupLine("Available", DaysWith(rows, Available))
    + GroupLine("Booked", DaysWith(rows, Booked))
    + GroupLine("Blocked", DaysWith(rows, Blocked))
    + GroupLine("Maintenance", DaysWith(rows, Maintenance))
  }

  /** The report before trimming: the header line followed by the body. */
  function Untrimmed(month: string, year: string, rows: seq<Row>): string {
    Header(month, year) + "\n" + Body(rows)
  }

  /** The report for the rows a month query returned. */
  function ReportText(month: string, year: string, rows: seq<Row>): string {
    if rows == [] then EmptyReport(month, year)
    else Trim(Untrimmed(month, year, rows))
  }

  /** Trimming never reaches into a first line that starts and ends in a non-space. */
  lemma TrimKeepsHead(h: string, rest: string)
    requires h != [] && !IsSpace(h[0]) && !IsSpace(h[|h| - 1])
    ensures h <= Trim(h + "\n" + rest)
  {
    var s := h + "\n" + rest;
    assert s[0] == h[0] && s[|h| - 1] == h[|h| - 1];
    TrimStartNoop(s);
    TrimEndKeeps(s, |h| - 1);
  }

  /** Trimming a text that starts visibly and ends in a newline right after a
      visible character drops exactly that newline. */
  lemma TrimDropsNewline(s: string)
    requires |s| >= 2 && !IsSpace(s[0]) && s[|s| - 1] == '\n' && !IsSpace(s[|s| - 2])
    ensures Trim(s) + "\n" == s
  {
    TrimStartNoop(s);
    TrimEndKeeps(s, |s| - 2);
    assert IsSpace(s[|s| - 1]);
    assert Trim(s) == s[..|s| - 1];
    assert s[..|s| - 1] + [s[|s| - 1]] == s;
  }

  lemma HeaderEnds(month: string, year: string)
    ensures var h := Header(month, year);
      h != [] && !IsSpace(h[0]) && !IsSpace(h[|h| - 1])
  {
    var h := Header(month, year);
    assert h[0] == 'A' && h[|h| - 1] == ':';
  }

  /** A non-empty query always yields a report that opens with the header. */
  lemma ReportStartsWithHeader(month: string, year: string, rows: seq<Row>)
    requires rows != []
    ensures Header(month, year) <= ReportText(month, year, rows)
  {
    HeaderEnds(month, year);
    TrimKeepsHead(Header(month, year), Body(rows));
  }

  /** Only rows with one of the four statuses contribute, so a month whose
      rows all carry other statuses reports the bare header. */
  lemma UnknownStatusesReportHeaderOnly(month: string, year: string, rows: seq<Row>)
    requires rows != [] && KnownCount(rows) == 0
    ensures ReportText(month, year, rows) == Header(month, year)
  {
    GroupsPartition(rows);
    var h := Header(month, year);
    HeaderEnds(month, year);
    assert Body(rows) == "";
    var s := h + "\n";
    assert s[0] == h[0] && s[|s| - 2] == h[|h| - 1];
    assert Untrimmed(month, year, rows) == s;
    TrimDropsNewline(s);
  }
}
