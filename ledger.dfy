/** The `apartment_availability` table as a sequence of rows in insertion
    order, with the UNIQUE(apartmentId, date) constraint as an invariant, the
    insert-or-update-on-conflict statement, the point lookup and the month
    query. */
module Ledger {
  import opened Results
  import opened Text

  /** One row; the surrogate `id` is not modelled. `status` is the TEXT column:
      nothing in the table restricts it to the four statuses. */
  datatype Row = Row(apartmentId: string, date: string, status: string, notes: Option<string>)

  /** The four statuses the service and its actions know. */
  datatype Status = Available | Booked | Blocked | Maintenance

  function StatusName(s: Status): string {
    match s
    case Available => "available"
    case Booked => "booked"
    case Blocked => "blocked"
    case Maintenance => "maintenance"
  }

  /** Which of the four statuses a stored TEXT value spells, if any. */
  function ParseStatus(text: string): (s: Option<Status>)
    ensures s.Some? ==> StatusName(s.value) == text
  {
    if text == "available" then Some(Available)
    else if text == "booked" then Some(Booked)
    else if text == "blocked" then Some(Blocked)
    else if text == "maintenance" then Some(Maintenance)
    else None
  }

  /** A stored text spells a status exactly when it is that status's name. */
  lemma ParseStatusIff(text: string, s: Status)
    ensures ParseStatus(text) == Some(s) <==> text == StatusName(s)
  {
    ParseStatusName(s);
  }

  /** Every status name reads back as its status. */
  lemma ParseStatusName(s: Status)
    ensures ParseStatus(StatusName(s)) == Some(s)
  {
    match s
    case Available =>
    case Booked => assert "booked" != "available" by { assert "booked"[0] != "available"[0]; }
    case Blocked =>
      assert "blocked" != "available" by { assert "blocked"[0] != "available"[0]; }
      assert "blocked" != "booked" by { assert "blocked"[1] != "booked"[1]; }
    case Maintenance =>
      assert "maintenance" != "available" by { assert "maintenance"[0] != "available"[0]; }
      assert "maintenance" != "booked" by { assert "maintenance"[0] != "booked"[0]; }
      assert "maintenance" != "blocked" by { assert "maintenance"[0] != "blocked"[0]; }
  }

  predicate HasKey(r: Row, apartmentId: string, date: string) {
    r.apartmentId == apartmentId && r.date == date
  }

  /** UNIQUE(apartmentId, date): no two rows share a key. */
  ghost predicate Unique(rows: seq<Row>) {
    forall i, j :: 0 <= i < j < |rows| ==> !HasKey(rows[j], rows[i].apartmentId, rows[i].date)
  }

  /** `SELECT ... WHERE apartmentId = ? AND date = ?`: the row with that key, if any. */
  function Lookup(rows: seq<Row>, apartmentId: string, date: string): (r: Option<Row>)
    ensures r.Some? ==> r.value in rows && HasKey(r.value, apartmentId, date)
    ensures r.None? ==> forall x :: x in rows ==> !HasKey(x, apartmentId, date)
  {
    if rows == [] then None
    else if HasKey(rows[0], apartmentId, date) then Some(rows[0])
    else Lookup(rows[1..], apartmentId, date)
  }

  /** Under the uniqueness constraint a stored row is what the lookup finds. */
  lemma {:induction false} LookupStored(rows: seq<Row>, x: Row)
    requires Unique(rows) && x in rows
    ensures Lookup(rows, x.apartmentId, x.date) == Some(x)
  {
    if rows[0] != x {
      var j :| 0 <= j < |rows| && rows[j] == x;
      assert j > 0 && !HasKey(rows[j], rows[0].apartmentId, rows[0].date);
      assert rows[1..][j - 1] == x;
      UniqueTail(rows);
      LookupStored(rows[1..], x);
    }
  }

  /** `INSERT INTO ... VALUES (?, ?, ?, ?) ON CONFLICT(apartmentId, date) DO
      UPDATE SET status = excluded.status, notes = excluded.notes`: the row
      with the key is overwritten where it stands, or a new row is appended. */
  function Upsert(rows: seq<Row>, apartmentId: string, date: string, status: string, notes: Option<string>): (r: seq<Row>)
    ensures Row(apartmentId, date, status, notes) in r
    ensures forall x :: x in r ==> x in rows || x == Row(apartmentId, date, status, notes)
    ensures forall x :: x in rows && !HasKey(x, apartmentId, date) ==> x in r
    ensures |r| == if Lookup(rows, apartmentId, date).Some? then |rows| else |rows| + 1
  {
    if rows == [] then [Row(apartmentId, date, status, notes)]
    else if HasKey(rows[0], apartmentId, date) then [Row(apartmentId, date, status, notes)] + rows[1..]
    else [rows[0]] + Upsert(rows[1..], apartmentId, date, status, notes)
  }

  /** The upsert keeps the table free of duplicate keys. */
  lemma {:induction false} UpsertUnique(rows: seq<Row>, apartmentId: string, date: string, status: string, notes: Option<string>)
    requires Unique(rows)
    ensures Unique(Upsert(rows, apartmentId, date, status, notes))
  {
    if rows != [] {
      UniqueTail(rows);
      if HasKey(rows[0], apartmentId, date) {
        forall x | x in rows[1..]
          ensures !HasKey(x, rows[0].apartmentId, rows[0].date)
        {
          var j :| 0 <= j < |rows[1..]| && rows[1..][j] == x;
          assert rows[j + 1] == x;
        }
        UniqueCons(Row(apartmentId, date, status, notes), rows[1..]);
      } else {
        UpsertUnique(rows[1..], apartmentId, date, status, notes);
        var tail := Upsert(rows[1..], apartmentId, date, status, notes);
        forall x | x in tail
          ensures !HasKey(x, rows[0].apartmentId, rows[0].date)
        {
          if x in rows[1..] {
            var j :| 0 <= j < |rows[1..]| && rows[1..][j] == x;
            assert rows[j + 1] == x;
          }
        }
        UniqueCons(rows[0], tail);
      }
    }
  }

  lemma UniqueTail(rows: seq<Row>)
    requires Unique(rows) && rows != []
    ensures Unique(rows[1..])
  {
    forall i, k | 0 <= i < k < |rows[1..]|
      ensures !HasKey(rows[1..][k], rows[1..][i].apartmentId, rows[1..][i].date)
    {
      assert rows[1..][k] == rows[k + 1] && rows[1..][i] == rows[i + 1];
    }
  }

  lemma UniqueCons(x: Row, rows: seq<Row>)
    requires Unique(rows)
    requires forall y :: y in rows ==> !HasKey(y, x.apartmentId, x.date)
    ensures Unique([x] + rows)
  {
    var r := [x] + rows;
    forall i, k | 0 <= i < k < |r|
      ensures !HasKey(r[k], r[i].apartmentId, r[i].date)
    {
      assert r[k] == rows[k - 1];
      if i > 0 {
        assert r[i] == rows[i - 1];
      }
    }
  }

  /** Last write wins on the key written; every other key reads as before. */
  lemma {:induction false} LookupUpsert(rows: seq<Row>, apartmentId: string, date: string, status: string, notes: Option<string>, a: string, d: string)
    ensures Lookup(Upsert(rows, apartmentId, date, status, notes), a, d)
      == if a == apartmentId && d == date then Some(Row(apartmentId, date, status, notes)) else Lookup(rows, a, d)
  {
    if rows != [] && !HasKey(rows[0], apartmentId, date) {
      LookupUpsert(rows[1..], apartmentId, date, status, notes, a, d);
    }
  }

  /** Writing a row that is already stored changes nothing. */
  lemma {:induction false} UpsertStored(rows: seq<Row>, apartmentId: string, date: string, status: string, notes: Option<string>)
    requires Unique(rows) && Row(apartmentId, date, status, notes) in rows
    ensures Upsert(rows, apartmentId, date, status, notes) == rows
  {
    if !HasKey(rows[0], apartmentId, date) {
      assert Row(apartmentId, date, status, notes) in rows[1..];
      UpsertStored(rows[1..], apartmentId, date, status, notes);
      assert [rows[0]] + rows[1..] == rows;
    } else {
      LookupStored(rows, Row(apartmentId, date, status, notes));
      assert [rows[0]] + rows[1..] == rows;
    }
  }

  /** The table after one upsert per date, in the order given (the body of the
      batch transaction). */
  function UpsertAll(rows: seq<Row>, dates: seq<string>, apartmentId: string, status: string, notes: Option<string>): seq<Row>
  {
    if dates == [] then rows
    else Upsert(UpsertAll(rows, dates[..|dates| - 1], apartmentId, status, notes), apartmentId, dates[|dates| - 1], status, notes)
  }

  /** A one-date batch is a single upsert. */
  lemma UpsertAllSingle(rows: seq<Row>, date: string, apartmentId: string, status: string, notes: Option<string>)
    ensures UpsertAll(rows, [date], apartmentId, status, notes) == Upsert(rows, apartmentId, date, status, notes)
  {
    assert [date][..0] == [];
  }

  /** One more date is one more upsert. */
  lemma UpsertAllStep(rows: seq<Row>, dates: seq<string>, i: nat, apartmentId: string, status: string, notes: Option<string>)
    requires i < |dates|
    ensures UpsertAll(rows, dates[..i + 1], apartmentId, status, notes) ==
      Upsert(UpsertAll(rows, dates[..i], apartmentId, status, notes), apartmentId, dates[i], status, notes)
  {
    assert dates[..i + 1][..i] == dates[..i];
  }

  lemma {:induction false} UpsertAllUnique(rows: seq<Row>, dates: seq<string>, apartmentId: string, status: string, notes: Option<string>)
    requires Unique(rows)
    ensures Unique(UpsertAll(rows, dates, apartmentId, status, notes))
  {
    if dates != [] {
      UpsertAllUnique(rows, dates[..|dates| - 1], apartmentId, status, notes);
      UpsertUnique(UpsertAll(rows, dates[..|dates| - 1], apartmentId, status, notes), apartmentId, dates[|dates| - 1], status, notes);
    }
  }

  /** After the batch every date of it holds exactly the batch's status and
      notes for that apartment; every other key is unchanged. */
  lemma {:induction false} LookupUpsertAll(rows: seq<Row>, dates: seq<string>, apartmentId: string, status: string, notes: Option<string>, a: string, d: string)
    ensures Lookup(UpsertAll(rows, dates, apartmentId, status, notes), a, d)
      == if a == apartmentId && d in dates then Some(Row(apartmentId, d, status, notes)) else Lookup(rows, a, d)
  {
    if dates != [] {
      var init := dates[..|dates| - 1];
      var last := dates[|dates| - 1];
      assert dates == init + [last];
      LookupUpsertAllStep(rows, dates, apartmentId, status, notes, a, d);
      if !(a == apartmentId && d == last) {
        LookupUpsertAll(rows, init, apartmentId, status, notes, a, d);
        if a == apartmentId {
          assert d in dates <==> d in init;
        }
      }
    }
  }

  /** One step of the batch: the last date written, over the table the earlier dates left. */
  lemma LookupUpsertAllStep(rows: seq<Row>, dates: seq<string>, apartmentId: string, status: string, notes: Option<string>, a: string, d: string)
    requires dates != []
    ensures var prev := UpsertAll(rows, dates[..|dates| - 1], apartmentId, status, notes);
      Lookup(UpsertAll(rows, dates, apartmentId, status, notes), a, d)
        == if a == apartmentId && d == dates[|dates| - 1] then Some(Row(apartmentId, d, status, notes)) else Lookup(prev, a, d)
  {
    var prev := UpsertAll(rows, dates[..|dates| - 1], apartmentId, status, notes);
    LookupUpsert(prev, apartmentId, dates[|dates| - 1], status, notes, a, d);
  }

  /** Re-running a batch over a table that already holds its rows changes nothing. */
  lemma {:induction false} UpsertAllStored(rows: seq<Row>, dates: seq<string>, apartmentId: string, status: string, notes: Option<string>)
    requires Unique(rows)
    requires forall d :: d in dates ==> Row(apartmentId, d, status, notes) in rows
    ensures UpsertAll(rows, dates, apartmentId, status, notes) == rows
  {
    if dates != [] {
      var init := dates[..|dates| - 1];
      assert forall d :: d in init ==> d in dates;
      UpsertAllStored(rows, init, apartmentId, status, notes);
      UpsertStored(rows, apartmentId, dates[|dates| - 1], status, notes);
    }
  }

  /** The batch upsert is idempotent: applying it twice leaves the same table,
      row for row, as applying it once. */
  lemma UpsertAllIdempotent(rows: seq<Row>, dates: seq<string>, apartmentId: string, status: string, notes: Option<string>)
    requires Unique(rows)
    ensures var once := UpsertAll(rows, dates, apartmentId, status, notes);
      UpsertAll(once, dates, apartmentId, status, notes) == once
  {
    var once := UpsertAll(rows, dates, apartmentId, status, notes);
    UpsertAllUnique(rows, dates, apartmentId, status, notes);
    forall d | d in dates
      ensures Row(apartmentId, d, status, notes) in once
    {
      LookupUpsertAll(rows, dates, apartmentId, status, notes, apartmentId, d);
    }
    UpsertAllStored(once, dates, apartmentId, status, notes);
  }

  // ---------------------------------------------------------------- month query

  /** The pattern `year-MM-%` of the month query, as the prefix it matches;
      the month is zero-padded to two digits. */
  function MonthPrefix(month: string, year: string): string {
    year + "-" + Pad2(month) + "-"
  }

  /** The rows of one apartment whose date starts with `prefix`, in table order. */
  function Matching(rows: seq<Row>, apartmentId: string, prefix: string): (r: seq<Row>)
    ensures forall x :: x in r <==> x in rows && x.apartmentId == apartmentId && prefix <= x.date
    ensures forall x :: multiset(r)[x] == if x.apartmentId == apartmentId && prefix <= x.date then multiset(rows)[x] else 0
    ensures |r| <= |rows|
  {
    if rows == [] then []
    else
      assert rows == [rows[0]] + rows[1..];
      var rest := Matching(rows[1..], apartmentId, prefix);
      if rows[0].apartmentId == apartmentId && prefix <= rows[0].date then [rows[0]] + rest else rest
  }

  /** `ORDER BY date ASC` holds of the sequence. */
  predicate SortedByDate(rows: seq<Row>) {
    forall i :: 0 < i < |rows| ==> TextLe(rows[i - 1].date, rows[i].date)
  }

  function InsertByDate(x: Row, sorted: seq<Row>): (r: seq<Row>)
    ensures multiset(r) == multiset(sorted) + multiset{x}
    ensures r[0] == x || (sorted != [] && r[0] == sorted[0])
  {
    if sorted == [] || TextLe(x.date, sorted[0].date) then [x] + sorted
    else
      assert sorted == [sorted[0]] + sorted[1..];
      [sorted[0]] + InsertByDate(x, sorted[1..])
  }

  /** Inserting into a date-sorted sequence keeps it sorted. */
  lemma {:induction false} InsertByDateSorted(x: Row, sorted: seq<Row>)
    requires SortedByDate(sorted)
    ensures SortedByDate(InsertByDate(x, sorted))
  {
    var r := InsertByDate(x, sorted);
    if sorted == [] || TextLe(x.date, sorted[0].date) {
      forall i | 0 < i < |r|
        ensures TextLe(r[i - 1].date, r[i].date)
      {
        if i > 1 {
          assert r[i - 1] == sorted[i - 2] && r[i] == sorted[i - 1];
        }
      }
    } else {
      TextLeTotal(x.date, sorted[0].date);
      var rest := sorted[1..];
      assert SortedByDate(rest) by {
        forall i | 0 < i < |rest|
          ensures TextLe(rest[i - 1].date, rest[i].date)
        {
          assert rest[i - 1] == sorted[i] && rest[i] == sorted[i + 1];
        }
      }
      InsertByDateSorted(x, rest);
      var tail := InsertByDate(x, rest);
      assert r == [sorted[0]] + tail;
      forall i | 0 < i < |r|
        ensures TextLe(r[i - 1].date, r[i].date)
      {
        if i == 1 {
          assert r[1] == tail[0];
          if tail[0] != x {
            assert tail[0] == sorted[1];
          }
        } else {
          assert r[i - 1] == tail[i - 2] && r[i] == tail[i - 1];
        }
      }
    }
  }

  /** Sorting by date: a permutation of the rows in ascending date order. */
  function SortByDate(rows: seq<Row>): (r: seq<Row>)
    ensures multiset(r) == multiset(rows)
    ensures SortedByDate(r)
  {
    if rows == [] then []
    else
      assert rows == [rows[0]] + rows[1..];
      InsertByDateSorted(rows[0], SortByDate(rows[1..]));
      InsertByDate(rows[0], SortByDate(rows[1..]))
  }

  /** `SELECT * FROM apartment_availability WHERE apartmentId = ? AND date
      LIKE 'year-MM-%' ORDER BY date ASC`: exactly the stored rows of the
      apartment in that month, in ascending date order. Days without a row are
      not filled in. */
  function MonthQuery(rows: seq<Row>, month: string, year: string, apartmentId: string): (q: seq<Row>)
    ensures SortedByDate(q)
    ensures forall x :: x in q <==> x in rows && x.apartmentId == apartmentId && MonthPrefix(month, year) <= x.date
    ensures forall x :: multiset(q)[x] ==
                        if x.apartmentId == apartmentId && MonthPrefix(month, year) <= x.date then multiset(rows)[x] else 0
    ensures |q| <= |rows|
  {
    var m := Matching(rows, apartmentId, MonthPrefix(month, year));
    var q := SortByDate(m);
    assert |q| == |multiset(q)| == |multiset(m)| == |m|;
    assert forall x :: x in q <==> x in multiset(m);
    q
  }

  /** Two stored rows with the same key are the same row. */
  lemma {:induction false} SameKeySameRow(rows: seq<Row>, x: Row, y: Row)
    requires Unique(rows) && x in rows && y in rows
    requires HasKey(y, x.apartmentId, x.date)
    ensures x == y
  {
    LookupStored(rows, x);
    LookupStored(rows, y);
  }

  /** Under the uniqueness constraint every row is stored at most once. */
  lemma {:induction false} UniqueOnce(rows: seq<Row>, x: Row)
    requires Unique(rows)
    ensures multiset(rows)[x] <= 1
  {
    if rows != [] {
      var rest := rows[1..];
      assert rows == [rows[0]] + rest;
      assert Unique(rest) by {
        forall i, j | 0 <= i < j < |rest|
          ensures !HasKey(rest[j], rest[i].apartmentId, rest[i].date)
        {
          assert rest[i] == rows[i + 1] && rest[j] == rows[j + 1];
        }
      }
      UniqueOnce(rest, x);
      if x == rows[0] {
        assert x !in rest by {
          forall j | 0 <= j < |rest|
            ensures rest[j] != x
          {
            assert rest[j] == rows[j + 1];
          }
        }
      }
    }
  }

  /** A row at two positions of a sequence occurs at least twice in it. */
  lemma {:induction false} TwiceCounted(q: seq<Row>, i: int, j: int)
    requires 0 <= i < j < |q| && q[i] == q[j]
    ensures multiset(q)[q[i]] >= 2
  {
    assert q == q[..j] + q[j..];
    assert q[i] == q[..j][i];
    assert q[j] == q[j..][0];
  }

  /** Under the uniqueness constraint the month query returns each stored
      day of the apartment once: no two records share a date. */
  lemma {:induction false} MonthQueryUnique(rows: seq<Row>, month: string, year: string, apartmentId: string)
    requires Unique(rows)
    ensures var q := MonthQuery(rows, month, year, apartmentId);
      forall i, j :: 0 <= i < j < |q| ==> q[i].apartmentId == apartmentId && q[i].date != q[j].date
  {
    var q := MonthQuery(rows, month, year, apartmentId);
    forall i, j | 0 <= i < j < |q|
      ensures q[i].apartmentId == apartmentId && q[i].date != q[j].date
    {
      assert q[i] in q && q[j] in q;
      if q[i].date == q[j].date {
        SameKeySameRow(rows, q[i], q[j]);
        TwiceCounted(q, i, j);
        UniqueOnce(rows, q[i]);
        assert false;
      }
    }
  }
}
