/** The CHECK_AVAILABILITY action: validates `month` and `year` and answers
    with the service's month report. */
module CheckAction {
  import opened Results
  import opened Text
  import opened Ledger
  import opened Report
  import opened Store

  const MissingMonthYear := "Please provide both month and year to check availability"

  /** The `data` of a successful check. */
  datatype Queried = Queried(month: string, year: string)

  /** The handler. It reads the table and changes nothing. The service
      throws when the connection is closed, and rejects with the engine's
      error when the query fails (`readFault`); the handler answers with
      the thrown message. */
  method CheckAvailabilityAction(service: AvailabilityService, month: Option<string>, year: Option<string>,
                                 readFault: Option<string>)
    returns (r: Reply<Queried>)
    ensures Missing(month) || Missing(year) ==> r == Failure(MissingMonthYear)
    ensures !Missing(month) && !Missing(year) && !service.ready ==> r == Failure(NotInitialized)
    ensures !Missing(month) && !Missing(year) && service.ready && readFault.Some? ==> r == Failure(readFault.value)
    ensures !Missing(month) && !Missing(year) && service.ready && readFault.None? ==>
      r == Success(ReportText(month.value, year.value, MonthQuery(service.rows, month.value, year.value, DefaultApartment)),
                   Queried(month.value, year.value))
  {
    if Missing(month) || Missing(year) {
      return Failure(MissingMonthYear);
    }
    var availability := service.GetFormattedAvailability(month.value, year.value, DefaultApartment, readFault);
    match availability {
      case Thrown(message) => return Failure(message);
      case Ok(text) => return Success(text, Queried(month.value, year.value));
    }
  }

  /** A two-character month is its own zero-padding. */
  lemma Pad2Two(m: string)
    requires |m| == 2
    ensures Pad2(m) == m
  {
    assert forall i :: 0 <= i < 2 ==> Pad2(m)[i] == m[i];
  }

  /** What an update stores, the month's report shows: after `year-mm-dd` is
      set to a known status, the report of that month lists `dd` in that
      status's group. */
  lemma UpdatedDayReported(rows: seq<Row>, apartmentId: string, year: string, mm: string, dd: string,
                           status: Status, notes: Option<string>)
    requires |mm| == 2 && '-' !in year && '-' !in mm && '-' !in dd
    ensures var date := year + "-" + mm + "-" + dd;
      var q := MonthQuery(Upsert(rows, apartmentId, date, StatusName(status), notes), mm, year, apartmentId);
      dd in DaysWith(q, status)
  {
    var date := year + "-" + mm + "-" + dd;
    var x := Row(apartmentId, date, StatusName(status), notes);
    var q := MonthQuery(Upsert(rows, apartmentId, date, StatusName(status), notes), mm, year, apartmentId);
    Pad2Two(mm);
    assert date == MonthPrefix(mm, year) + dd;
    assert x in q;
    DayOfDate(year, mm, dd);
    DaysWithMembers(q, status, dd);
  }

  /** The report of a month without rows is the "no information" sentence,
      and any other report opens with the header. */
  lemma ReportShape(month: string, year: string, rows: seq<Row>)
    ensures MonthQuery(rows, month, year, DefaultApartment) == [] ==>
      ReportText(month, year, MonthQuery(rows, month, year, DefaultApartment)) == EmptyReport(month, year)
    ensures MonthQuery(rows, month, year, DefaultApartment) != [] ==>
      Header(month, year) <= ReportText(month, year, MonthQuery(rows, month, year, DefaultApartment))
  {
    var q := MonthQuery(rows, month, year, DefaultApartment);
    if q != [] {
      ReportStartsWithHeader(month, year, q);
    }
  }
}
