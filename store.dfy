/** `ApartmentAvailabilityService`: the availability table behind a
    connection that is either open (`ready`) or not. Every query and update
    throws "Database not initialized" while the connection is closed. */
module Store {
  import opened Results
  import opened Text
  import opened Ledger
  import opened Report
  import opened Snapshot

  const NotInitialized := "Database not initialized"

  /** The apartment every operation uses when none is named. */
  const DefaultApartment := "santa-maria"

  /** How opening the database goes: it works, `open` itself throws, or the
      connection opens and `CREATE TABLE` throws. */
  datatype InitFault = NoFault | OpenFails | SchemaFails

  class AvailabilityService {
    /** Whether `db` holds a connection. */
    var ready: bool
    /** The `apartment_availability` table, in insertion order. */
    var rows: seq<Row>

    /** UNIQUE(apartmentId, date) */
    ghost predicate Valid()
      reads this
    {
      Unique(rows)
    }

    /** A service over a database file holding `stored`; no connection yet. */
    constructor(stored: seq<Row>)
      requires Unique(stored)
      ensures Valid() && !ready && rows == stored
    {
      ready := false;
      rows := stored;
    }

    /** `initialize`: the connection is kept even when creating the table
        fails afterwards, and a failed `open` leaves `db` as it was. */
    method Initialize(fault: InitFault) returns (ok: bool)
      requires Valid()
      modifies this
      ensures Valid() && rows == old(rows)
      ensures ok <==> fault == NoFault
      ensures ready <==> old(ready) || fault != OpenFails
    {
      if fault == OpenFails {
        return false;
      }
      ready := true;
      if fault == SchemaFails {
        return false;
      }
      return true;
    }

    /** `shutdown`: closing a closed service succeeds; a failed `close`
        leaves the connection in place. */
    method Shutdown(closeFails: bool) returns (ok: bool)
      requires Valid()
      modifies this
      ensures Valid() && rows == old(rows)
      ensures ok <==> !(old(ready) && closeFails)
      ensures ready <==> old(ready) && closeFails
    {
      if ready {
        if closeFails {
          return false;
        }
        ready := false;
      }
      return true;
    }

    /** `getAvailability`: the apartment's rows whose date starts with
        `year-MM-`, by ascending date. `readFault` is the message of the
        error the engine rejects the query with, if it does. */
    method GetAvailability(month: string, year: string, apartmentId: string, readFault: Option<string>)
      returns (r: Outcome<seq<Row>>)
      ensures !ready ==> r == Thrown(NotInitialized)
      ensures ready && readFault.Some? ==> r == Thrown(readFault.value)
      ensures ready && readFault.None? ==> r.Ok? && r.value == MonthQuery(rows, month, year, apartmentId)
    {
      if !ready {
        return Thrown(NotInitialized);
      }
      if readFault.Some? {
        return Thrown(readFault.value);
      }
      return Ok(MonthQuery(rows, month, year, apartmentId));
    }

    /** `getFormattedAvailability`: groups the month's days by status and
        prints one line per non-empty group. */
    method GetFormattedAvailability(month: string, year: string, apartmentId: string, readFault: Option<string>)
      returns (r: Outcome<string>)
      ensures !ready ==> r == Thrown(NotInitialized)
      ensures ready && readFault.Some? ==> r == Thrown(readFault.value)
      ensures ready && readFault.None? ==> r.Ok? && r.value == ReportText(month, year, MonthQuery(rows, month, year, apartmentId))
    {
      var query := GetAvailability(month, year, apartmentId, readFault);
      if query.Thrown? {
        return Thrown(query.message);
      }
      var records := query.value;
      if |records| == 0 {
        return Ok(EmptyReport(month, year));
      }
      var available, booked, blocked, maintenance := GroupByStatus(records);
      var result := Header(month, year) + "\n";
      var l1, l2, l3, l4 := GroupLine("Available", available), GroupLine("Booked", booked),
        GroupLine("Blocked", blocked), GroupLine("Maintenance", maintenance);
      result := result + l1;
      result := result + l2;
      result := result + l3;
      result := result + l4;
      AppendLines(Header(month, year) + "\n", l1, l2, l3, l4);
      return Ok(Trim(result));
    }

    /** `updateAvailability`: upserts every date inside one transaction.
        `fault` names the statement the engine fails: the upsert of
        `dates[k]`, or COMMIT when it is `|dates|`; the transaction then
        rolls back and the call answers false. */
    method UpdateAvailability(dates: seq<string>, status: string, apartmentId: string, notes: Option<string>, fault: Option<nat>)
      returns (r: Outcome<bool>)
      requires Valid()
      modifies this
      ensures Valid() && ready == old(ready)
      ensures !old(ready) ==> r == Thrown(NotInitialized) && rows == old(rows)
      ensures old(ready) ==> r == Ok(fault.None? || fault.value > |dates|)
      ensures old(ready) && r == Ok(true) ==> rows == UpsertAll(old(rows), dates, apartmentId, status, notes)
      ensures r != Ok(true) ==> rows == old(rows)
    {
      if !ready {
        return Thrown(NotInitialized);
      }
      var snapshot := rows;
      for i := 0 to |dates|
        invariant rows == UpsertAll(snapshot, dates[..i], apartmentId, status, notes)
        invariant Unique(rows) && ready
        invariant fault.None? || fault.value >= i
      {
        if fault.Some? && fault.value == i {
          rows := snapshot;
          return Ok(false);
        }
        UpsertAllStep(snapshot, dates, i, apartmentId, status, notes);
        UpsertUnique(rows, apartmentId, dates[i], status, notes);
        rows := Upsert(rows, apartmentId, dates[i], status, notes);
      }
      assert dates[..|dates|] == dates;
      if fault.Some? && fault.value == |dates| {
        rows := snapshot;
        return Ok(false);
      }
      return Ok(true);
    }

    /** `getDateStatus`: the stored status, or "available" when the date
        has no row. `readFault` is as for `GetAvailability`. */
    method GetDateStatus(date: string, apartmentId: string, readFault: Option<string>) returns (r: Outcome<string>)
      ensures !ready ==> r == Thrown(NotInitialized)
      ensures ready && readFault.Some? ==> r == Thrown(readFault.value)
      ensures ready && readFault.None? ==> r == Ok(match Lookup(rows, apartmentId, date)
                                                   case Some(x) => x.status
                                                   case None => "available")
    {
      if !ready {
        return Thrown(NotInitialized);
      }
      if readFault.Some? {
        return Thrown(readFault.value);
      }
      var record := Lookup(rows, apartmentId, date);
      if record.Some? {
        return Ok(record.value.status);
      }
      return Ok("available");
    }

    /** `importFromJson`: one outer transaction around the whole document. */
    method ImportFromJson(doc: Document, apartmentId: string, fault: Option<nat>, failing: set<nat>) returns (r: Outcome<bool>)
      requires Valid()
      modifies this
      ensures Valid() && ready == old(ready)
      ensures !old(ready) ==> r == Thrown(NotInitialized) && rows == old(rows)
      ensures old(ready) ==> r == Ok(ImportResult(old(rows), doc, apartmentId, fault, failing).Some?)
      ensures old(ready) && r == Ok(true) ==> rows == ImportResult(old(rows), doc, apartmentId, fault, failing).value
      ensures r != Ok(true) ==> rows == old(rows)
    {
      if !ready {
        return Thrown(NotInitialized);
      }
      var snapshot := rows;
      var completed := false;
      match doc {
        case ArrayForm(items) =>
          completed := ImportItemsInto(items, apartmentId, fault);
        case ObjectForm(entries) =>
          var walked := ImportEntries(entries, apartmentId, failing);
          completed := walked && (fault.None? || fault.value > 0);
        case NullDocument =>
          completed := false;
        case OtherValue =>
          completed := fault.None? || fault.value > 0;
      }
      if !completed {
        rows := snapshot;
        return Ok(false);
      }
      return Ok(true);
    }

    /** The array form's loop and COMMIT; leaves the table as it stood when
        the import gave up. */
    method ImportItemsInto(items: seq<Item>, apartmentId: string, fault: Option<nat>) returns (completed: bool)
      requires Valid() && ready
      modifies this
      ensures Valid() && ready
      ensures completed == ArrayCompletes(items, fault)
      ensures completed ==> rows == ImportItems(old(rows), items, apartmentId)
    {
      var start := rows;
      var k := 0;
      for i := 0 to |items|
        invariant rows == ImportItems(start, items[..i], apartmentId)
        invariant Unique(rows) && ready
        invariant k == KeptCount(items[..i])
        invariant NullItem !in items[..i]
        invariant fault.None? || fault.value >= k
      {
        assert items[..i + 1][..i] == items[..i];
        var item := items[i];
        if item.NullItem? {
          assert NullItem in items;
          return false;
        }
        if Kept(item) {
          if fault.Some? && fault.value == k {
            ImportPrefixFails(items, i, fault);
            return false;
          }
          UpsertUnique(rows, apartmentId, item.date.value, item.status.value, NotesOf(item));
          rows := Upsert(rows, apartmentId, item.date.value, item.status.value, NotesOf(item));
          k := k + 1;
        }
      }
      assert items[..|items|] == items;
      return fault.None? || fault.value > k;
    }

    /** The object form's walk over its keys; false when it throws. */
    method ImportEntries(entries: seq<(string, MonthData)>, apartmentId: string, failing: set<nat>) returns (walked: bool)
      requires Valid() && ready
      modifies this
      ensures Valid() && ready
      ensures walked <==> ObjectCalls(entries).Some?
      ensures walked ==> rows == Replay(old(rows), ObjectCalls(entries).value, apartmentId, failing)
    {
      var start := rows;
      var calls: seq<Call> := [];
      for i := 0 to |entries|
        invariant ObjectCalls(entries[..i]) == Some(calls)
        invariant rows == Replay(start, calls, apartmentId, failing)
        invariant Valid() && ready
      {
        ObjectCallsStep(entries, i);
        var (key, data) := entries[i];
        var parts := KeyParts(key);
        if parts.None? {
          continue;
        }
        var (month, year) := parts.value;
        var ok;
        ok, calls := ImportEntry(year, month, data, apartmentId, failing, start, calls);
        if !ok {
          ObjectCallsPrefix(entries, i + 1);
          return false;
        }
      }
      assert entries[..|entries|] == entries;
      return true;
    }

    /** One month entry: `monthData.available` and the other lists, in the
        order available, booked, blocked, maintenance. */
    method ImportEntry(year: string, month: string, data: MonthData, apartmentId: string,
                       failing: set<nat>, ghost start: seq<Row>, before: seq<Call>)
      returns (ok: bool, calls: seq<Call>)
      requires Valid() && ready
      requires rows == Replay(start, before, apartmentId, failing)
      modifies this
      ensures Valid() && ready
      ensures ok <==> EntryCalls(year, month, data).Some?
      ensures ok ==> calls == before + EntryCalls(year, month, data).value
      ensures ok ==> rows == Replay(start, calls, apartmentId, failing)
    {
      calls := before;
      if data.NullData? {
        return false, calls;
      }
      var c1, c2, c3;
      ok, c1 := ImportDays(year, month, data.available, "available", apartmentId, failing, start, before);
      if !ok {
        return false, calls;
      }
      ok, c2 := ImportDays(year, month, data.booked, "booked", apartmentId, failing, start, c1);
      if !ok {
        return false, calls;
      }
      ok, c3 := ImportDays(year, month, data.blocked, "blocked", apartmentId, failing, start, c2);
      if !ok {
        return false, calls;
      }
      ok, calls := ImportDays(year, month, data.maintenance, "maintenance", apartmentId, failing, start, c3);
      if ok {
        AppendCalls(before, DayCalls(year, month, data.available, "available").value,
          DayCalls(year, month, data.booked, "booked").value,
          DayCalls(year, month, data.blocked, "blocked").value,
          DayCalls(year, month, data.maintenance, "maintenance").value);
      }
    }

    /** One day list: each day goes through its own `updateAvailability`
        call, whose answer is ignored. */
    method ImportDays(year: string, month: string, days: Option<seq<Day>>, status: string, apartmentId: string,
                      failing: set<nat>, ghost start: seq<Row>, before: seq<Call>)
      returns (ok: bool, calls: seq<Call>)
      requires Valid() && ready
      requires rows == Replay(start, before, apartmentId, failing)
      modifies this
      ensures Valid() && ready
      ensures ok <==> DayCalls(year, month, days, status).Some?
      ensures ok ==> calls == before + DayCalls(year, month, days, status).value
      ensures ok ==> rows == Replay(start, calls, apartmentId, failing)
    {
      calls := before;
      assert before + [] == before;
      if days.None? {
        return true, calls;
      }
      var ds := days.value;
      for j := 0 to |ds|
        invariant DayCalls(year, month, Some(ds[..j]), status).Some?
        invariant calls == before + DayCalls(year, month, Some(ds[..j]), status).value
        invariant rows == Replay(start, calls, apartmentId, failing)
        invariant Valid() && ready
      {
        DayCallsStep(year, month, ds, j, status);
        var text := DayText(ds[j]);
        if text.None? {
          assert NullDay in ds;
          return false, calls;
        }
        var date := DayDate(year, month, text.value);
        var callFault := if |calls| in failing then Some(0) else None;
        UpsertAllSingle(rows, date, apartmentId, status, None);
        var _ := UpdateAvailability([date], status, apartmentId, None, callFault);
        ReplayStep(start, calls, Call(date, status), apartmentId, failing);
        calls := calls + [Call(date, status)];
      }
      assert ds[..|ds|] == ds;
      return true, calls;
    }
  }

  /** Regrouping the calls of one entry. */
  /** The `for … of records` loop with its `switch`: each row's day goes to
      the group of its status, rows of any other status to none. */
  method GroupByStatus(records: seq<Row>) returns (available: seq<string>, booked: seq<string>, blocked: seq<string>, maintenance: seq<string>)
    ensures available == DaysWith(records, Available) && booked == DaysWith(records, Booked)
    ensures blocked == DaysWith(records, Blocked) && maintenance == DaysWith(records, Maintenance)
  {
    available, booked, blocked, maintenance := [], [], [], [];
    for i := 0 to |records|
      invariant available == DaysWith(records[..i], Available)
      invariant booked == DaysWith(records[..i], Booked)
      invariant blocked == DaysWith(records[..i], Blocked)
      invariant maintenance == DaysWith(records[..i], Maintenance)
    {
      DaysWithStep(records, i, Available);
      DaysWithStep(records, i, Booked);
      DaysWithStep(records, i, Blocked);
      DaysWithStep(records, i, Maintenance);
      var day := DayOf(records[i].date);
      match ParseStatus(records[i].status) {
        case Some(Available) => available := available + [day];
        case Some(Booked) => booked := booked + [day];
        case Some(Blocked) => blocked := blocked + [day];
        case Some(Maintenance) => maintenance := maintenance + [day];
        case None =>
      }
    }
    assert records[..|records|] == records;
  }

  /** Regrouping the calls of one month's four lists. */
  lemma AppendCalls(before: seq<Call>, c1: seq<Call>, c2: seq<Call>, c3: seq<Call>, c4: seq<Call>)
    ensures before + c1 + c2 + c3 + c4 == before + (c1 + c2 + c3 + c4)
  {
  }

  /** When an upsert of the array form fails, the import does not complete. */
  lemma ImportPrefixFails(items: seq<Item>, i: nat, fault: Option<nat>)
    requires i < |items| && Kept(items[i]) && fault == Some(KeptCount(items[..i]))
    ensures !ArrayCompletes(items, fault)
  {
    KeptCountPrefix(items, i + 1);
    assert items[..i + 1][..i] == items[..i];
  }

  /** Counting kept items never decreases along the list. */
  lemma {:induction false} KeptCountPrefix(items: seq<Item>, n: nat)
    requires n <= |items|
    ensures KeptCount(items[..n]) <= KeptCount(items)
    decreases |items| - n
  {
    if n < |items| {
      KeptCountPrefix(items, n + 1);
      assert items[..n + 1][..n] == items[..n];
    } else {
      assert items[..n] == items;
    }
  }

  /** Once the walk throws, it stays thrown. */
  lemma {:induction false} ObjectCallsPrefix(entries: seq<(string, MonthData)>, n: nat)
    requires n <= |entries| && ObjectCalls(entries[..n]).None?
    ensures ObjectCalls(entries).None?
    decreases |entries| - n
  {
    if n < |entries| {
      assert entries[..n + 1][..n] == entries[..n];
      ObjectCallsPrefix(entries, n + 1);
    } else {
      assert entries[..n] == entries;
    }
  }
}
