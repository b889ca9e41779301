/** The JSON documents `importFromJson` accepts, and what importing one does
    to the table: an array of `{date, status, notes}` items, or an object
    keyed by `"month/year"` whose values list days per status. */
module Snapshot {
  import opened Results
  import opened Text
  import opened Ledger

  /** One element of the array form. Absent, null or empty fields are `None`
      or `Some("")`; `NullItem` is a `null` element, whose `.date` throws. */
  datatype Item = Entry(date: Option<string>, status: Option<string>, notes: Option<string>) | NullItem

  /** The integers `Number.prototype.toString` prints as plain decimal
      digits without a sign: from 0 up to, not including, 10^21. */
  type PlainInteger = n: nat | n < 1_000_000_000_000_000_000_000

  /** One element of a day list: a non-negative integer below 10^21; any
      other value that is not `null` (a string, a negative, fractional or
      larger number, a boolean, an object or an array), given as the text
      its `toString()` prints ("-1", "1.5", "1e+21", "true", "[object
      Object]"); or a `null`, whose `toString()` throws. */
  datatype Day = Num(n: PlainInteger) | Printed(text: string) | NullDay

  /** The value under one `"month/year"` key. A list that is not an array is
      `None`; `NullData` is a `null` value, whose `.available` throws. */
  datatype MonthData =
    | Lists(available: Option<seq<Day>>, booked: Option<seq<Day>>,
            blocked: Option<seq<Day>>, maintenance: Option<seq<Day>>)
    | NullData

  /** The whole document: an array, an object (keys in `Object.keys` order),
      `null`, or anything else (a string, a number, `undefined`). */
  datatype Document = ArrayForm(items: seq<Item>) | ObjectForm(entries: seq<(string, MonthData)>) | NullDocument | OtherValue

  /** One `updateAvailability([date], status, apartmentId)` call of the object form. */
  datatype Call = Call(date: string, status: string)

  // ---------------------------------------------------------------- array form

  /** `item.date && item.status`: both present and non-empty. */
  predicate Kept(item: Item) {
    item.Entry? && item.date.Some? && item.date.value != "" && item.status.Some? && item.status.value != ""
  }

  /** `item.notes || null`: an empty note is stored as NULL. */
  function NotesOf(item: Item): (n: Option<string>)
    requires item.Entry?
    ensures n.Some? ==> n.value != "" && n == item.notes
    ensures item.notes.Some? && item.notes.value != "" ==> n == item.notes
  {
    if item.notes.Some? && item.notes.value != "" then item.notes else None
  }

  /** How many upserts the array form issues. */
  function KeptCount(items: seq<Item>): (k: nat)
    ensures k <= |items|
  {
    if items == [] then 0
    else KeptCount(items[..|items| - 1]) + (if Kept(items[|items| - 1]) then 1 else 0)
  }

  /** The table after upserting every kept item in order. */
  function ImportItems(rows: seq<Row>, items: seq<Item>, apartmentId: string): seq<Row> {
    if items == [] then rows
    else
      var prev := ImportItems(rows, items[..|items| - 1], apartmentId);
      var item := items[|items| - 1];
      if Kept(item) then Upsert(prev, apartmentId, item.date.value, item.status.value, NotesOf(item))
      else prev
  }

  /** The array form completes when no element is `null` and the engine fails
      neither an upsert nor the COMMIT (statement `KeptCount(items)`). */
  predicate ArrayCompletes(items: seq<Item>, fault: Option<nat>) {
    NullItem !in items && (fault.None? || fault.value > KeptCount(items))
  }

  /** Importing items keeps the key unique. */
  lemma {:induction false} ImportItemsUnique(rows: seq<Row>, items: seq<Item>, apartmentId: string)
    requires Unique(rows)
    ensures Unique(ImportItems(rows, items, apartmentId))
  {
    if items != [] {
      ImportItemsUnique(rows, items[..|items| - 1], apartmentId);
      var item := items[|items| - 1];
      if Kept(item) {
        UpsertUnique(ImportItems(rows, items[..|items| - 1], apartmentId), apartmentId,
          item.date.value, item.status.value, NotesOf(item));
      }
    }
  }

  /** After an array import a key holds the last kept item for its date, or
      what it held before when no kept item names it. */
  lemma {:induction false} LookupImportItems(rows: seq<Row>, items: seq<Item>, apartmentId: string, a: string, d: string)
    ensures Lookup(ImportItems(rows, items, apartmentId), a, d) ==
      if a == apartmentId && LastItem(items, d).Some? then
        var item := items[LastItem(items, d).value];
        Some(Row(apartmentId, d, item.status.value, NotesOf(item)))
      else Lookup(rows, a, d)
  {
    if items != [] {
      var init := items[..|items| - 1];
      var item := items[|items| - 1];
      LookupImportItems(rows, init, apartmentId, a, d);
      if Kept(item) {
        LookupUpsert(ImportItems(rows, init, apartmentId), apartmentId, item.date.value, item.status.value, NotesOf(item), a, d);
      }
      if LastItem(init, d).Some? {
        assert items[LastItem(init, d).value] == init[LastItem(init, d).value];
      }
    }
  }

  /** Index of the last kept item whose date is `d`. */
  function LastItem(items: seq<Item>, d: string): (i: Option<nat>)
    ensures i.Some? ==> i.value < |items| && Kept(items[i.value]) && items[i.value].date.value == d
    ensures i.Some? ==> forall j :: i.value < j < |items| && Kept(items[j]) ==> items[j].date.value != d
    ensures i.None? ==> forall j :: 0 <= j < |items| && Kept(items[j]) ==> items[j].date.value != d
  {
    if items == [] then None
    else
      var last := items[|items| - 1];
      if Kept(last) && last.date.value == d then Some(|items| - 1)
      else
        var i := LastItem(items[..|items| - 1], d);
        assert forall j :: 0 <= j < |items| - 1 ==> items[..|items| - 1][j] == items[j];
        i
  }

  // ---------------------------------------------------------------- object form

  /** `monthYear.split('/')` gives `[month, year]`; a key without a non-empty
      month and a non-empty year is skipped. */
  function KeyParts(key: string): (r: Option<(string, string)>)
    ensures r.Some? ==> r.value.0 != "" && r.value.1 != "" && '/' !in r.value.0 && '/' !in r.value.1
  {
    var parts := Split(key, '/');
    match Part(parts, 1)
    case Some(year) => if parts[0] != "" && year != "" then Some((parts[0], year)) else None
    case None => None
  }

  /** `day.toString()`; `None` when it throws. */
  function DayText(day: Day): Option<string> {
    match day
    case Num(n) => Some(DecimalText(n))
    case Printed(t) => Some(t)
    case NullDay => None
  }

  /** `${year}-${month.padStart(2, '0')}-${day.padStart(2, '0')}` */
  function DayDate(year: string, month: string, day: string): string {
    year + "-" + Pad2(month) + "-" + Pad2(day)
  }

  /** The calls one day list issues, in list order; `None` when a day's
      `toString()` throws part-way. */
  function DayCalls(year: string, month: string, days: Option<seq<Day>>, status: string): (r: Option<seq<Call>>)
    ensures r.Some? ==> days.Some? ==> |r.value| == |days.value|
    ensures r.Some? ==> forall c :: c in r.value ==> c.status == status
    ensures r.None? <==> days.Some? && NullDay in days.value
    decreases if days.Some? then |days.value| else 0
  {
    if days.None? || days.value == [] then Some([])
    else
      var ds := days.value;
      match DayCalls(year, month, Some(ds[..|ds| - 1]), status)
      case None =>
        assert NullDay in ds;
        None
      case Some(prev) =>
        assert NullDay in ds <==> ds[|ds| - 1] == NullDay;
        match DayText(ds[|ds| - 1])
        case None => None
        case Some(t) => Some(prev + [Call(DayDate(year, month, t), status)])
  }

  /** The calls of one month entry: its available, booked, blocked and
      maintenance lists, in that order. */
  function EntryCalls(year: string, month: string, data: MonthData): Option<seq<Call>> {
    match data
    case NullData => None
    case Lists(av, bo, bl, ma) =>
      match DayCalls(year, month, av, "available")
      case None => None
      case Some(c1) =>
        match DayCalls(year, month, bo, "booked")
        case None => None
        case Some(c2) =>
          match DayCalls(year, month, bl, "blocked")
          case None => None
          case Some(c3) =>
            match DayCalls(year, month, ma, "maintenance")
            case None => None
            case Some(c4) => Some(c1 + c2 + c3 + c4)
  }

  /** Every call of the object form, in order; `None` when the walk throws
      (a `null` month value or a `null` day under a usable key). */
  function ObjectCalls(entries: seq<(string, MonthData)>): Option<seq<Call>> {
    if entries == [] then Some([])
    else
      match ObjectCalls(entries[..|entries| - 1])
      case None => None
      case Some(prev) =>
        var (key, data) := entries[|entries| - 1];
        match KeyParts(key)
        case None => Some(prev)
        case Some(my) =>
          match EntryCalls(my.1, my.0, data)
          case None => None
          case Some(cs) => Some(prev + cs)
  }

  /** The table after the per-date calls, where a call whose index is in
      `failing` rolls itself back and changes nothing. */
  function Replay(rows: seq<Row>, calls: seq<Call>, apartmentId: string, failing: set<nat>): seq<Row> {
    if calls == [] then rows
    else
      var prev := Replay(rows, calls[..|calls| - 1], apartmentId, failing);
      var c := calls[|calls| - 1];
      if |calls| - 1 in failing then prev else Upsert(prev, apartmentId, c.date, c.status, None)
  }

  /** Index of the last call for date `d` that went through. */
  function LastCall(calls: seq<Call>, failing: set<nat>, d: string): (i: Option<nat>)
    ensures i.Some? ==> i.value < |calls| && i.value !in failing && calls[i.value].date == d
    ensures i.Some? ==> forall j :: i.value < j < |calls| && j !in failing ==> calls[j].date != d
    ensures i.None? ==> forall j :: 0 <= j < |calls| && j !in failing ==> calls[j].date != d
  {
    if calls == [] then None
    else
      var n := |calls| - 1;
      if n !in failing && calls[n].date == d then Some(n)
      else
        var i := LastCall(calls[..n], failing, d);
        assert forall j :: 0 <= j < n ==> calls[..n][j] == calls[j];
        i
  }

  /** Last call wins: a date ends with the status of the last call for it
      that went through, with no notes; every other key is unchanged. */
  lemma {:induction false} LookupReplay(rows: seq<Row>, calls: seq<Call>, apartmentId: string, failing: set<nat>, a: string, d: string)
    ensures Lookup(Replay(rows, calls, apartmentId, failing), a, d) ==
      if a == apartmentId && LastCall(calls, failing, d).Some? then
        Some(Row(apartmentId, d, calls[LastCall(calls, failing, d).value].status, None))
      else Lookup(rows, a, d)
  {
    if calls != [] {
      var n := |calls| - 1;
      var init := calls[..n];
      LookupReplay(rows, init, apartmentId, failing, a, d);
      if n !in failing {
        LookupUpsert(Replay(rows, init, apartmentId, failing), apartmentId, calls[n].date, calls[n].status, None, a, d);
      }
      if LastCall(init, failing, d).Some? {
        assert calls[LastCall(init, failing, d).value] == init[LastCall(init, failing, d).value];
      }
    }
  }

  /** The per-date calls keep the key unique. */
  lemma {:induction false} ReplayUnique(rows: seq<Row>, calls: seq<Call>, apartmentId: string, failing: set<nat>)
    requires Unique(rows)
    ensures Unique(Replay(rows, calls, apartmentId, failing))
  {
    if calls != [] {
      var n := |calls| - 1;
      ReplayUnique(rows, calls[..n], apartmentId, failing);
      if n !in failing {
        UpsertUnique(Replay(rows, calls[..n], apartmentId, failing), apartmentId, calls[n].date, calls[n].status, None);
      }
    }
  }

  /** Different days of the same month give different dates. */
  lemma DayDateInjective(year: string, month: string, m: nat, n: nat)
    requires DayDate(year, month, DecimalText(m)) == DayDate(year, month, DecimalText(n))
    ensures m == n
  {
    var p := year + "-" + Pad2(month) + "-";
    var x := Pad2(DecimalText(m));
    var y := Pad2(DecimalText(n));
    assert p + x == p + y;
    assert x == (p + x)[|p|..];
    assert y == (p + y)[|p|..];
    Pad2Value(DecimalText(m));
    Pad2Value(DecimalText(n));
  }

  /** One more day extends the calls by that day's call, or throws. */
  lemma DayCallsStep(year: string, month: string, ds: seq<Day>, j: nat, status: string)
    requires j < |ds| && DayCalls(year, month, Some(ds[..j]), status).Some?
    ensures DayCalls(year, month, Some(ds[..j + 1]), status) ==
      match DayText(ds[j])
      case None => None
      case Some(t) => Some(DayCalls(year, month, Some(ds[..j]), status).value + [Call(DayDate(year, month, t), status)])
  {
    assert ds[..j + 1][..j] == ds[..j];
  }

  /** One more key extends the calls by that entry's calls, skips it, or throws. */
  lemma ObjectCallsStep(entries: seq<(string, MonthData)>, i: nat)
    requires i < |entries| && ObjectCalls(entries[..i]).Some?
    ensures ObjectCalls(entries[..i + 1]) ==
      match KeyParts(entries[i].0)
      case None => ObjectCalls(entries[..i])
      case Some(my) =>
        match EntryCalls(my.1, my.0, entries[i].1)
        case None => None
        case Some(cs) => Some(ObjectCalls(entries[..i]).value + cs)
  {
    assert entries[..i + 1][..i] == entries[..i];
  }

  /** One more call either rolls back or upserts its date. */
  lemma ReplayStep(rows: seq<Row>, calls: seq<Call>, c: Call, apartmentId: string, failing: set<nat>)
    ensures Replay(rows, calls + [c], apartmentId, failing) ==
      if |calls| in failing then Replay(rows, calls, apartmentId, failing)
      else Upsert(Replay(rows, calls, apartmentId, failing), apartmentId, c.date, c.status, None)
  {
    assert (calls + [c])[..|calls|] == calls;
  }

  // ---------------------------------------------------------------- whole import

  /** The table a completed import leaves, or `None` when the import rolls
      back. `fault` names the outer-transaction statement the engine fails
      (the array form's upserts, then COMMIT); `failing` the per-date calls
      of the object form that fail and roll themselves back. */
  function ImportResult(rows: seq<Row>, doc: Document, apartmentId: string, fault: Option<nat>, failing: set<nat>): Option<seq<Row>> {
    match doc
    case ArrayForm(items) =>
      if ArrayCompletes(items, fault) then Some(ImportItems(rows, items, apartmentId)) else None
    case ObjectForm(entries) =>
      (match ObjectCalls(entries)
       case Some(calls) => if fault.None? || fault.value > 0 then Some(Replay(rows, calls, apartmentId, failing)) else None
       case None => None)
    case NullDocument => None
    case OtherValue => if fault.None? || fault.value > 0 then Some(rows) else None
  }

  /** Whatever the document, a completed import keeps the key unique. */
  lemma ImportResultUnique(rows: seq<Row>, doc: Document, apartmentId: string, fault: Option<nat>, failing: set<nat>)
    requires Unique(rows) && ImportResult(rows, doc, apartmentId, fault, failing).Some?
    ensures Unique(ImportResult(rows, doc, apartmentId, fault, failing).value)
  {
    match doc
    case ArrayForm(items) => ImportItemsUnique(rows, items, apartmentId);
    case ObjectForm(entries) => ReplayUnique(rows, ObjectCalls(entries).value, apartmentId, failing);
    case NullDocument =>
    case OtherValue =>
  }
}
