/** The per-month day lists of the admin availability file: `available_days`
    and `booked_days`, edited with `filter`, spread and a numeric `sort`. */
module DayLists {

  /** One entry of `data.availability`. */
  datatype MonthDays = MonthDays(available: seq<int>, booked: seq<int>)

  /** `days.filter(day => !drop.includes(day))`. */
  function Without(days: seq<int>, drop: seq<int>): (r: seq<int>)
    ensures forall d :: d in r <==> d in days && d !in drop
    ensures |r| <= |days|
  {
    if days == [] then []
    else (if days[0] in drop then [] else [days[0]]) + Without(days[1..], drop)
  }

  /** `a` is `b` with some elements left out, the rest in their order. */
  predicate SubsequenceOf(a: seq<int>, b: seq<int>)
    decreases |b|
  {
    a == [] || (b != [] && if a[0] == b[0] then SubsequenceOf(a[1..], b[1..]) else SubsequenceOf(a, b[1..]))
  }

  /** Filtering keeps the order of what it keeps. */
  lemma {:induction false} WithoutSubsequence(days: seq<int>, drop: seq<int>)
    ensures SubsequenceOf(Without(days, drop), days)
  {
    if days != [] {
      WithoutSubsequence(days[1..], drop);
      var rest := Without(days[1..], drop);
      if days[0] !in drop {
        assert ([days[0]] + rest)[1..] == rest;
      } else {
        assert [] + rest == rest;
        SubsequenceSkip(rest, days);
      }
    }
  }

  /** A subsequence of the tail is a subsequence of the whole. */
  lemma {:induction false} SubsequenceSkip(a: seq<int>, b: seq<int>)
    requires b != [] && SubsequenceOf(a, b[1..])
    ensures SubsequenceOf(a, b)
    decreases |b|
  {
    if a != [] && a[0] == b[0] {
      var t := b[1..];
      SubsequenceTail(a, t);
      SubsequenceSkip(a[1..], t);
    }
  }

  /** Dropping the head of a subsequence keeps it a subsequence of the tail. */
  lemma {:induction false} SubsequenceTail(a: seq<int>, b: seq<int>)
    requires a != [] && SubsequenceOf(a, b)
    ensures SubsequenceOf(a[1..], b[1..])
    decreases |b|
  {
    if a[0] != b[0] {
      var t := b[1..];
      SubsequenceTail(a, t);
      SubsequenceSkip(a[1..], t);
    }
  }

  /** The number of occurrences of `d`. */
  function Count(days: seq<int>, d: int): nat {
    multiset(days)[d]
  }

  /** Filtering keeps every occurrence of a kept day and none of a dropped one. */
  lemma {:induction false} WithoutCount(days: seq<int>, drop: seq<int>, d: int)
    ensures Count(Without(days, drop), d) == if d in drop then 0 else Count(days, d)
  {
    if days != [] {
      WithoutCount(days[1..], drop, d);
      assert days == [days[0]] + days[1..];
    }
  }

  /** Ascending numeric order (`sort((a, b) => a - b)`). */
  predicate Sorted(days: seq<int>) {
    forall i, j :: 0 <= i < j < |days| ==> days[i] <= days[j]
  }

  function Insert(x: int, sorted: seq<int>): (r: seq<int>)
    requires Sorted(sorted)
    ensures Sorted(r) && multiset(r) == multiset(sorted) + multiset{x}
    ensures r[0] == x || (sorted != [] && r[0] == sorted[0])
  {
    if sorted == [] || x <= sorted[0] then
      ConsSorted(x, sorted);
      [x] + sorted
    else
      var rest := Insert(x, sorted[1..]);
      assert sorted == [sorted[0]] + sorted[1..];
      ConsSorted(sorted[0], rest);
      [sorted[0]] + rest
  }

  /** A day no later than the head of a sorted list can go in front of it. */
  lemma ConsSorted(h: int, t: seq<int>)
    requires Sorted(t) && (t == [] || h <= t[0])
    ensures Sorted([h] + t)
  {
  }

  /** `[...days].sort((a, b) => a - b)`: the same days in ascending order. */
  function SortAsc(days: seq<int>): (r: seq<int>)
    ensures Sorted(r) && multiset(r) == multiset(days)
  {
    if days == [] then []
    else
      assert days == [days[0]] + days[1..];
      Insert(days[0], SortAsc(days[1..]))
  }

  /** `Array.from({length: 31}, (_, i) => i + 1)`: the days 1 to 31. */
  function FullMonth(): (r: seq<int>)
    ensures |r| == 31 && forall i :: 0 <= i < 31 ==> r[i] == i + 1
  {
    seq(31, i => i + 1)
  }

  /** A new month: every day available, none booked. */
  function FreshMonth(): MonthDays {
    MonthDays(FullMonth(), [])
  }

  /** `bookDays` on one month: the requested days leave `available_days`,
      and those not booked yet are appended to `booked_days`, which is then
      sorted. */
  function Book(m: MonthDays, requested: seq<int>): MonthDays {
    MonthDays(Without(m.available, requested), SortAsc(m.booked + Without(requested, m.booked)))
  }

  /** `unbookDays` on one month: the mirror image of `Book`. */
  function Unbook(m: MonthDays, requested: seq<int>): MonthDays {
    MonthDays(SortAsc(m.available + Without(requested, m.available)), Without(m.booked, requested))
  }

  /** After booking, a day is available exactly when it was and was not
      requested, and booked exactly when it was or was requested; the
      available days keep their order and the booked days are sorted. */
  lemma BookMoves(m: MonthDays, requested: seq<int>)
    ensures var n := Book(m, requested);
      && (forall d :: d in n.available <==> d in m.available && d !in requested)
      && (forall d :: d in n.booked <==> d in m.booked || d in requested)
      && SubsequenceOf(n.available, m.available) && Sorted(n.booked)
  {
    var n := Book(m, requested);
    WithoutSubsequence(m.available, requested);
    forall d
      ensures d in n.booked <==> d in m.booked || d in requested
    {
      assert d in n.booked <==> d in multiset(n.booked);
    }
  }

  /** After unbooking, a day is booked exactly when it was and was not
      requested, and available exactly when it was or was requested. */
  lemma UnbookMoves(m: MonthDays, requested: seq<int>)
    ensures var n := Unbook(m, requested);
      && (forall d :: d in n.booked <==> d in m.booked && d !in requested)
      && (forall d :: d in n.available <==> d in m.available || d in requested)
      && SubsequenceOf(n.booked, m.booked) && Sorted(n.available)
  {
    var n := Unbook(m, requested);
    WithoutSubsequence(m.booked, requested);
    forall d
      ensures d in n.available <==> d in m.available || d in requested
    {
      assert d in n.available <==> d in multiset(n.available);
    }
  }

  /** Repeats in one request are not merged: a day not booked before is
      booked as many times as the request names it. */
  lemma BookKeepsRepeats(m: MonthDays, requested: seq<int>, d: int)
    requires d !in m.booked
    ensures Count(Book(m, requested).booked, d) == Count(requested, d)
  {
    WithoutCount(requested, m.booked, d);
  }

  /** The two lists split the days 1 to 31 between them. */
  ghost predicate Partition(m: MonthDays) {
    && (forall d :: d in m.available || d in m.booked <==> 1 <= d <= 31)
    && (forall d :: !(d in m.available && d in m.booked))
  }

  lemma FreshMonthPartition()
    ensures Partition(FreshMonth())
  {
    var r := FullMonth();
    forall d | 1 <= d <= 31
      ensures d in r
    {
      assert r[d - 1] == d;
    }
  }

  /** Requests of valid days keep a month split between the two lists. */
  lemma BookKeepsPartition(m: MonthDays, requested: seq<int>)
    requires Partition(m) && forall d :: d in requested ==> 1 <= d <= 31
    ensures Partition(Book(m, requested))
  {
    BookMoves(m, requested);
  }

  lemma UnbookKeepsPartition(m: MonthDays, requested: seq<int>)
    requires Partition(m) && forall d :: d in requested ==> 1 <= d <= 31
    ensures Partition(Unbook(m, requested))
  {
    UnbookMoves(m, requested);
  }

  /** Unbooking the days just booked, when all of them were available, gives
      back the same days in each list (the lists may differ in order). */
  lemma UnbookUndoesBook(m: MonthDays, requested: seq<int>)
    requires Partition(m) && forall d :: d in requested ==> d in m.available
    ensures var n := Unbook(Book(m, requested), requested);
      (forall d :: d in n.available <==> d in m.available) && (forall d :: d in n.booked <==> d in m.booked)
  {
    BookMoves(m, requested);
    UnbookMoves(Book(m, requested), requested);
  }
}
