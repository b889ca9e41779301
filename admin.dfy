/** The admin channel's command processor: `!help`, `!avail`, `!book`,
    `!unbook`, `!price` and `!monthly` over the availability file, held here
    as the object the file's JSON parses to. */
module Admin {
  import opened Results
  import opened Text
  import opened DayLists

  // ---------------------------------------------------------------- pricing

  datatype Season = LowSeason | MidSeason | HighSeason | Holiday

  /** The key of a season in `data.pricing.daily` / `data.pricing.monthly`. */
  function SeasonName(s: Season): string {
    match s
    case LowSeason => "low_season"
    case MidSeason => "mid_season"
    case HighSeason => "high_season"
    case Holiday => "holiday"
  }

  /** Different seasons have different names. */
  lemma SeasonNameInjective(s: Season, t: Season)
    requires SeasonName(s) == SeasonName(t)
    ensures s == t
  {
    var a, b := SeasonName(s), SeasonName(t);
    assert |a| + a[0] as int == |b| + b[0] as int;
  }

  /** The seasons `updatePrice` accepts. */
  const DailySeasons := [LowSeason, MidSeason, HighSeason, Holiday]

  /** The seasons `updateMonthlyPrice` accepts: no holiday rate. */
  const MonthlySeasons := [LowSeason, MidSeason, HighSeason]

  /** `validSeasons.includes(season)`, answering which season it names. */
  function ParseSeason(name: string, allowed: seq<Season>): (r: Option<Season>)
    ensures r.Some? ==> r.value in allowed && SeasonName(r.value) == name
    ensures r.None? ==> forall s :: s in allowed ==> SeasonName(s) != name
  {
    if allowed == [] then None
    else if SeasonName(allowed[0]) == name then Some(allowed[0])
    else ParseSeason(name, allowed[1..])
  }

  /** Every accepted season is recognised by its own name. */
  lemma ParseSeasonName(s: Season, allowed: seq<Season>)
    requires s in allowed
    ensures ParseSeason(SeasonName(s), allowed) == Some(s)
  {
    var r := ParseSeason(SeasonName(s), allowed);
    if r.Some? {
      SeasonNameInjective(r.value, s);
    }
  }

  /** The holiday rate can be set per night but not per month. */
  lemma HolidayDailyOnly()
    ensures ParseSeason("holiday", DailySeasons) == Some(Holiday)
    ensures ParseSeason("holiday", MonthlySeasons) == None
  {
    ParseSeasonName(Holiday, DailySeasons);
    assert forall s :: s in MonthlySeasons ==> |SeasonName(s)| != |"holiday"|;
  }

  /** The season of a month number (`parseInt` of the `MM` part): June to
      September high, March to May and October mid, any other value low. */
  function SeasonOf(monthNum: Option<int>): (s: Season)
    ensures s != Holiday
  {
    match monthNum
    case None => LowSeason
    case Some(n) =>
      if 6 <= n <= 9 then HighSeason
      else if 3 <= n <= 5 || n == 10 then MidSeason
      else LowSeason
  }

  /** One entry of `data.pricing.daily`. */
  datatype DailyRate = DailyRate(rate: int, minimumStay: int)

  // ---------------------------------------------------------------- the file

  /** The parsed availability file: the months, the daily and monthly rates
      per season, and the `updated` date every save stamps. */
  datatype FileData = FileData(
    availability: map<string, MonthDays>,
    daily: map<Season, DailyRate>,
    monthly: map<Season, int>,
    updated: string)

  /** What a command answers: `{success, message}`. The messages carry the
      values the source prints into its text. */
  datatype Message =
    | HelpText
    | InvalidMonth
    | NoDays
    | InvalidDays
    | MonthNotFound(month: string)
    | NoMonthData(month: string)
    | MonthInfo(month: string, available: seq<int>, booked: seq<int>, dailyRate: int, season: Season,
                monthlyRate: int, minimumStay: int)
    | DaysBooked(month: string, requested: seq<int>, available: seq<int>, booked: seq<int>)
    | DaysUnbooked(month: string, requested: seq<int>, available: seq<int>, booked: seq<int>)
    | InvalidSeason(allowed: seq<Season>)
    | InvalidRate
    | DailyRateUpdated(season: Season, oldRate: int, newRate: int)
    | MonthlyRateUpdated(season: Season, oldRate: int, newRate: int)
    | Error(context: string)
    | UnknownCommand

  datatype Response = Response(success: bool, message: Message)

  // ---------------------------------------------------------------- arguments

  /** `/^\d{4}-\d{2}$/` */
  predicate IsMonthKey(s: string) {
    |s| == 7 && s[4] == '-' && forall i :: 0 <= i < 7 && i != 4 ==> IsDigit(s[i])
  }

  /** `!month || !/^\d{4}-\d{2}$/.test(month)`, negated. */
  predicate ValidMonth(month: Option<string>) {
    month.Some? && IsMonthKey(month.value)
  }

  /** `parseInt(month.split('-')[1])`. */
  function MonthNumber(key: string): Option<int> {
    match Part(Split(key, '-'), 1)
    case None => None
    case Some(mm) => ParseInt(mm, true)
  }

  /** The month number of a `YYYY-MM` key is the value of its two digits. */
  lemma MonthNumberOfKey(key: string)
    requires IsMonthKey(key)
    ensures MonthNumber(key) == Some(NumberValue(key[5..7], 10))
  {
    var y, mm := key[..4], key[5..7];
    assert key == y + "-" + mm;
    assert forall i :: 0 <= i < 2 ==> IsDigit(mm[i]);
    assert Join([y, mm], "-") == y + "-" + mm by {
      assert [y, mm][1..] == [mm];
    }
    SplitJoin([y, mm], '-');
    assert mm + "" == mm;
    ParseIntLeadingDigits(mm, "", true);
  }

  /** `parseInt(day.trim(), 10)`. */
  function DayValue(part: string): Option<int> {
    ParseInt(Trim(part), false)
  }

  /** Neither NaN nor below 1 nor above 31. */
  predicate ValidDay(v: Option<int>) {
    v.Some? && 1 <= v.value <= 31
  }

  /** The parsed days, or None when some part fails `isNaN` or the range test. */
  function ParseDays(parts: seq<string>): (r: Option<seq<int>>)
    ensures r.Some? <==> forall i :: 0 <= i < |parts| ==> ValidDay(DayValue(parts[i]))
    ensures r.Some? ==> |r.value| == |parts| && forall i :: 0 <= i < |parts| ==> DayValue(parts[i]) == Some(r.value[i])
  {
    if parts == [] then Some([])
    else if !ValidDay(DayValue(parts[0])) then None
    else match ParseDays(parts[1..])
      case None => None
      case Some(rest) => Some([DayValue(parts[0]).value] + rest)
  }

  /** Parsed days all lie between 1 and 31. */
  lemma ParseDaysRange(parts: seq<string>)
    ensures var r := ParseDays(parts); r.Some? ==> forall d :: d in r.value ==> 1 <= d <= 31
  {
    var r := ParseDays(parts);
    if r.Some? {
      forall d | d in r.value
        ensures 1 <= d <= 31
      {
        var i :| 0 <= i < |r.value| && r.value[i] == d;
        assert ValidDay(DayValue(parts[i]));
      }
    }
  }

  /** `daysString.split(',').map(day => parseInt(day.trim(), 10))`, validated. */
  function RequestedDays(daysString: string): (r: Option<seq<int>>)
    ensures r.Some? ==> forall d :: d in r.value ==> 1 <= d <= 31
  {
    ParseDaysRange(Split(daysString, ','));
    ParseDays(Split(daysString, ','))
  }

  /** The decimal texts of some days. */
  function Decimals(days: seq<nat>): (r: seq<string>)
    ensures |r| == |days|
    ensures forall i :: 0 <= i < |days| ==> r[i] == DecimalText(days[i])
  {
    if days == [] then [] else [DecimalText(days[0])] + Decimals(days[1..])
  }

  /** A day reads back from its decimal text. */
  lemma DayValueDecimal(n: nat)
    ensures DayValue(DecimalText(n)) == Some(n)
  {
    var t := DecimalText(n);
    assert IsDigit(t[0]) && IsDigit(t[|t| - 1]);
    TrimNoop(t);
    ParseIntDecimal(n, false);
  }

  lemma ParseDaysDecimals(days: seq<nat>)
    requires forall d :: d in days ==> 1 <= d <= 31
    ensures ParseDays(Decimals(days)) == Some(days)
  {
    var parts := Decimals(days);
    forall i | 0 <= i < |parts|
      ensures DayValue(parts[i]) == Some(days[i] as int) && ValidDay(DayValue(parts[i]))
    {
      assert days[i] in days;
      DayValueDecimal(days[i]);
    }
    var r := ParseDays(parts);
    assert r.Some?;
    assert r.value == days;
  }

  /** A comma-separated list of valid days reads back as those days, repeats
      and order kept. */
  lemma DaysRoundTrip(days: seq<nat>)
    requires days != [] && forall d :: d in days ==> 1 <= d <= 31
    ensures RequestedDays(Join(Decimals(days), ",")) == Some(days)
  {
    var parts := Decimals(days);
    forall p | p in parts
      ensures ',' !in p
    {
      var i :| 0 <= i < |parts| && parts[i] == p;
      assert AllIn(p, Digit);
    }
    SplitJoin(parts, ',');
    ParseDaysDecimals(days);
  }

  // ---------------------------------------------------------------- commands

  /** What `processCommand` dispatches to, with the arguments it passes. */
  datatype Command =
    | HelpCmd
    | AvailCmd(month: Option<string>)
    | BookCmd(month: Option<string>, days: Option<string>)
    | UnbookCmd(month: Option<string>, days: Option<string>)
    | PriceCmd(season: Option<string>, rate: Option<string>)
    | MonthlyCmd(season: Option<string>, rate: Option<string>)
    | UnknownCmd

  /** The `switch (action)` of `processCommand`. */
  function Dispatch(action: string, arg1: Option<string>, arg2: Option<string>): Command {
    if action == "!help" then HelpCmd
    else if action == "!avail" then AvailCmd(arg1)
    else if action == "!book" then BookCmd(arg1, arg2)
    else if action == "!unbook" then UnbookCmd(arg1, arg2)
    else if action == "!price" then PriceCmd(arg1, arg2)
    else if action == "!monthly" then MonthlyCmd(arg1, arg2)
    else UnknownCmd
  }

  /** `command.trim().split(' ')`, the first part lower-cased as the action. */
  function ParseCommand(command: string): Command {
    var parts := Split(Trim(command), ' ');
    Dispatch(Lower(parts[0]), Part(parts, 1), Part(parts, 2))
  }

  /** A command written as three space-separated words reaches the action
      its first word names in any case, with the other two as arguments. */
  lemma CommandWords(action: string, arg1: string, arg2: string)
    requires action != [] && arg1 != [] && arg2 != []
    requires ' ' !in action && ' ' !in arg1 && ' ' !in arg2
    requires !IsSpace(action[0]) && !IsSpace(arg2[|arg2| - 1])
    ensures ParseCommand(action + " " + arg1 + " " + arg2) == Dispatch(Lower(action), Some(arg1), Some(arg2))
  {
    var s := action + " " + arg1 + " " + arg2;
    assert s[0] == action[0] && s[|s| - 1] == arg2[|arg2| - 1];
    TrimNoop(s);
    var parts := [action, arg1, arg2];
    assert Join(parts, " ") == s by {
      assert parts[1..][1..] == [arg2];
      assert Join(parts[1..], " ") == arg1 + " " + arg2;
    }
    SplitJoin(parts, ' ');
  }

  // ---------------------------------------------------------------- operations

  /** `showAvailability`: reads the file and changes nothing. A pricing table
      without the month's season makes the source throw, which it reports. */
  function ShowAvailability(d: FileData, month: Option<string>): Response {
    if !ValidMonth(month) then Response(false, InvalidMonth)
    else if month.value !in d.availability then Response(true, NoMonthData(month.value))
    else
      var season := SeasonOf(MonthNumber(month.value));
      if season !in d.daily || season !in d.monthly then Response(false, Error("showing availability"))
      else
        var m := d.availability[month.value];
        Response(true, MonthInfo(month.value, m.available, m.booked, d.daily[season].rate, season,
                                 d.monthly[season], d.daily[season].minimumStay))
  }

  /** The month `!avail` reports on takes its rates from the season of its
      `MM` digits, which is never the holiday season. */
  lemma ShowAvailabilitySeason(d: FileData, key: string)
    requires IsMonthKey(key) && key in d.availability
    ensures var r := ShowAvailability(d, Some(key));
      var season := SeasonOf(Some(NumberValue(key[5..7], 10)));
      && season != Holiday
      && (r.success <==> season in d.daily && season in d.monthly)
      && (r.success ==> r.message.MonthInfo? && r.message.season == season
                        && r.message.dailyRate == d.daily[season].rate && r.message.monthlyRate == d.monthly[season])
  {
    MonthNumberOfKey(key);
  }

  /** The month a booking edits: the stored one, or a fresh one. */
  function MonthOrFresh(availability: map<string, MonthDays>, key: string): MonthDays {
    if key in availability then availability[key] else FreshMonth()
  }

  /** `bookDays`: the answer and the file it saves (the old one when it
      saves nothing). */
  function Booking(d: FileData, month: Option<string>, days: Option<string>, today: string): (Response, FileData) {
    if !ValidMonth(month) then (Response(false, InvalidMonth), d)
    else if Missing(days) then (Response(false, NoDays), d)
    else match RequestedDays(days.value)
      case None => (Response(false, InvalidDays), d)
      case Some(requested) =>
        var key := month.value;
        var n := Book(MonthOrFresh(d.availability, key), requested);
        (Response(true, DaysBooked(key, requested, n.available, n.booked)),
         d.(availability := d.availability[key := n], updated := today))
  }

  /** Storing a month over one that a fresh month may have just filled in
      leaves the same map as storing it directly. */
  lemma StoreOverwrites(m: map<string, MonthDays>, key: string, n: MonthDays)
    ensures (if key in m then m else m[key := FreshMonth()])[key := n] == m[key := n]
  {
  }

  /** Unfolds `Booking` for arguments that pass every check: the step
      `BookDays` needs to reach `Booking`'s answer and file. */
  lemma BookingAccepted(d: FileData, key: string, daysString: string, today: string)
    requires IsMonthKey(key) && daysString != "" && RequestedDays(daysString).Some?
    ensures var requested := RequestedDays(daysString).value;
      var n := Book(MonthOrFresh(d.availability, key), requested);
      Booking(d, Some(key), Some(daysString), today)
        == (Response(true, DaysBooked(key, requested, n.available, n.booked)),
            d.(availability := d.availability[key := n], updated := today))
  {
  }

  /** `unbookDays`: a month missing from the file is refused before the
      days are even looked at. */
  function Unbooking(d: FileData, month: Option<string>, days: Option<string>, today: string): (Response, FileData) {
    if !ValidMonth(month) then (Response(false, InvalidMonth), d)
    else if Missing(days) then (Response(false, NoDays), d)
    else if month.value !in d.availability then (Response(false, MonthNotFound(month.value)), d)
    else match RequestedDays(days.value)
      case None => (Response(false, InvalidDays), d)
      case Some(requested) =>
        var key := month.value;
        var n := Unbook(d.availability[key], requested);
        (Response(true, DaysUnbooked(key, requested, n.available, n.booked)),
         d.(availability := d.availability[key := n], updated := today))
  }

  /** `!rateString || isNaN(parseInt(rateString))`, negated: the rate. */
  function Rate(rate: Option<string>): Option<int> {
    if Missing(rate) then None else ParseInt(rate.value, true)
  }

  /** The season argument among the allowed ones (`!season` is none of them). */
  function SeasonArg(season: Option<string>, allowed: seq<Season>): Option<Season> {
    if season.None? then None else ParseSeason(season.value, allowed)
  }

  /** `updatePrice`: sets one season's nightly rate, any of the four. */
  function PriceUpdate(d: FileData, season: Option<string>, rate: Option<string>, today: string): (Response, FileData) {
    match SeasonArg(season, DailySeasons)
    case None => (Response(false, InvalidSeason(DailySeasons)), d)
    case Some(s) =>
      match Rate(rate)
      case None => (Response(false, InvalidRate), d)
      case Some(v) =>
        if s !in d.daily then (Response(false, Error("updating price")), d)
        else
          (Response(true, DailyRateUpdated(s, d.daily[s].rate, v)),
           d.(daily := d.daily[s := d.daily[s].(rate := v)], updated := today))
  }

  /** `updateMonthlyPrice`: sets one season's monthly rate, holiday excluded. */
  function MonthlyPriceUpdate(d: FileData, season: Option<string>, rate: Option<string>, today: string): (Response, FileData) {
    match SeasonArg(season, MonthlySeasons)
    case None => (Response(false, InvalidSeason(MonthlySeasons)), d)
    case Some(s) =>
      match Rate(rate)
      case None => (Response(false, InvalidRate), d)
      case Some(v) =>
        if s !in d.monthly then (Response(false, Error("updating monthly price")), d)
        else
          (Response(true, MonthlyRateUpdated(s, d.monthly[s], v)),
           d.(monthly := d.monthly[s := v], updated := today))
  }

  /** `processCommand`, given the command it dispatched to. Only the named
      command's part of the file can change, and nothing changes on failure. */
  function Processed(d: FileData, c: Command, today: string): (r: (Response, FileData))
    ensures !r.0.success ==> r.1 == d
    ensures r.1 != d ==> r.0.success && r.1.updated == today
    ensures c.HelpCmd? || c.AvailCmd? || c.UnknownCmd? ==> r.1 == d
    ensures c.BookCmd? || c.UnbookCmd? ==> r.1.daily == d.daily && r.1.monthly == d.monthly
    ensures c.PriceCmd? ==> r.1.availability == d.availability && r.1.monthly == d.monthly
    ensures c.MonthlyCmd? ==> r.1.availability == d.availability && r.1.daily == d.daily
    ensures c.UnknownCmd? <==> r.0 == Response(false, UnknownCommand)
  {
    match c
    case HelpCmd => (Response(true, HelpText), d)
    case AvailCmd(month) => (ShowAvailability(d, month), d)
    case BookCmd(month, days) => Booking(d, month, days, today)
    case UnbookCmd(month, days) => Unbooking(d, month, days, today)
    case PriceCmd(season, rate) => PriceUpdate(d, season, rate, today)
    case MonthlyCmd(season, rate) => MonthlyPriceUpdate(d, season, rate, today)
    case UnknownCmd => (Response(false, UnknownCommand), d)
  }

  // ---------------------------------------------------------------- properties

  /** A successful booking takes every requested day out of the month's
      available days and into its booked days, starting from all 31 days
      available when the month was new; the other months stay as they were. */
  lemma BookingEffect(d: FileData, key: string, daysString: string, today: string)
    requires IsMonthKey(key) && daysString != "" && RequestedDays(daysString).Some?
    ensures var r := Booking(d, Some(key), Some(daysString), today);
      var requested := RequestedDays(daysString).value;
      var m := MonthOrFresh(d.availability, key);
      var n := r.1.availability[key];
      && r.0.success && key in r.1.availability
      && (forall v :: v in n.available <==> v in m.available && v !in requested)
      && (forall v :: v in n.booked <==> v in m.booked || v in requested)
      && (forall k :: k in d.availability && k != key ==> k in r.1.availability && r.1.availability[k] == d.availability[k])
      && (key !in d.availability ==> m == FreshMonth())
  {
    BookMoves(MonthOrFresh(d.availability, key), RequestedDays(daysString).value);
  }

  /** A successful unbooking moves every requested day back to available. */
  lemma UnbookingEffect(d: FileData, key: string, daysString: string, today: string)
    requires IsMonthKey(key) && daysString != "" && key in d.availability && RequestedDays(daysString).Some?
    ensures var r := Unbooking(d, Some(key), Some(daysString), today);
      var requested := RequestedDays(daysString).value;
      var m := d.availability[key];
      var n := r.1.availability[key];
      && r.0.success
      && (forall v :: v in n.booked <==> v in m.booked && v !in requested)
      && (forall v :: v in n.available <==> v in m.available || v in requested)
      && (forall k :: k in d.availability && k != key ==> r.1.availability[k] == d.availability[k])
  {
    UnbookMoves(d.availability[key], RequestedDays(daysString).value);
  }

  /** Every stored month splits the days 1 to 31 between its two lists. */
  ghost predicate AllPartitions(d: FileData) {
    Partitioned(d.availability)
  }

  ghost predicate Partitioned(availability: map<string, MonthDays>) {
    forall k :: k in availability ==> Partition(availability[k])
  }

  lemma StorePartition(availability: map<string, MonthDays>, key: string, m: MonthDays)
    requires Partitioned(availability) && Partition(m)
    ensures Partitioned(availability[key := m])
  {
  }

  /** No command breaks that split: booking and unbooking move valid days
      between the lists, and a month created by a booking starts split. */
  lemma {:induction false} CommandKeepsPartitions(d: FileData, c: Command, today: string)
    requires AllPartitions(d)
    ensures AllPartitions(Processed(d, c, today).1)
  {
    match c
    case BookCmd(month, days) =>
      if ValidMonth(month) && !Missing(days) && RequestedDays(days.value).Some? {
        var key, requested := month.value, RequestedDays(days.value).value;
        var m := MonthOrFresh(d.availability, key);
        FreshMonthPartition();
        assert Partition(m);
        BookKeepsPartition(m, requested);
        StorePartition(d.availability, key, Book(m, requested));
      }
    case UnbookCmd(month, days) =>
      if ValidMonth(month) && !Missing(days) && month.value in d.availability && RequestedDays(days.value).Some? {
        var key, requested := month.value, RequestedDays(days.value).value;
        UnbookKeepsPartition(d.availability[key], requested);
        StorePartition(d.availability, key, Unbook(d.availability[key], requested));
      }
    case _ =>
  }

  /** A rate update changes that season's rate alone; the minimum stay and
      every other season keep their values. */
  lemma PriceUpdateEffect(d: FileData, s: Season, rate: string, today: string)
    requires s in d.daily && ParseInt(rate, true).Some?
    ensures var r := PriceUpdate(d, Some(SeasonName(s)), Some(rate), today);
      && r.0 == Response(true, DailyRateUpdated(s, d.daily[s].rate, ParseInt(rate, true).value))
      && r.1.daily[s] == DailyRate(ParseInt(rate, true).value, d.daily[s].minimumStay)
      && (forall t :: t in d.daily && t != s ==> t in r.1.daily && r.1.daily[t] == d.daily[t])
  {
    ParseSeasonName(s, DailySeasons);
    ParseIntNaN("", true);
  }

  /** A monthly rate update changes that season's monthly rate alone; the
      holiday season is refused whatever the file holds. */
  lemma MonthlyPriceUpdateEffect(d: FileData, s: Season, rate: string, today: string)
    requires ParseInt(rate, true).Some?
    ensures var r := MonthlyPriceUpdate(d, Some(SeasonName(s)), Some(rate), today);
      && (s == Holiday ==> r == (Response(false, InvalidSeason(MonthlySeasons)), d))
      && (s != Holiday && s in d.monthly ==>
            && r.0 == Response(true, MonthlyRateUpdated(s, d.monthly[s], ParseInt(rate, true).value))
            && r.1.monthly[s] == ParseInt(rate, true).value
            && (forall t :: t in d.monthly && t != s ==> t in r.1.monthly && r.1.monthly[t] == d.monthly[t]))
  {
    if s == Holiday {
      HolidayDailyOnly();
    } else {
      ParseSeasonName(s, MonthlySeasons);
    }
    ParseIntNaN("", true);
  }

  // ---------------------------------------------------------------- the file object

  /** The loaded availability file, which the editing commands change in
      place before saving it. */
  class AvailabilityFile {
    var availability: map<string, MonthDays>
    var daily: map<Season, DailyRate>
    var monthly: map<Season, int>
    var updated: string

    constructor(d: FileData)
      ensures Contents() == d
    {
      availability, daily, monthly, updated := d.availability, d.daily, d.monthly, d.updated;
    }

    function Contents(): FileData
      reads this
    {
      FileData(availability, daily, monthly, updated)
    }

    method BookDays(month: Option<string>, days: Option<string>, today: string) returns (r: Response)
      modifies this
      ensures (r, Contents()) == Booking(old(Contents()), month, days, today)
    {
      if !ValidMonth(month) {
        return Response(false, InvalidMonth);
      }
      if Missing(days) {
        return Response(false, NoDays);
      }
      var requested := RequestedDays(days.value);
      if requested.None? {
        return Response(false, InvalidDays);
      }
      var key := month.value;
      ghost var before := availability;
      if key !in availability {
        availability := availability[key := FreshMonth()];
      }
      var entry := availability[key];
      var newAvailable := Without(entry.available, requested.value);
      var newBooked := SortAsc(entry.booked + Without(requested.value, entry.booked));
      StoreOverwrites(before, key, MonthDays(newAvailable, newBooked));
      availability := availability[key := MonthDays(newAvailable, newBooked)];
      updated := today;
      BookingAccepted(old(Contents()), key, days.value, today);
      return Response(true, DaysBooked(key, requested.value, newAvailable, newBooked));
    }

    method UnbookDays(month: Option<string>, days: Option<string>, today: string) returns (r: Response)
      modifies this
      ensures (r, Contents()) == Unbooking(old(Contents()), month, days, today)
    {
      if !ValidMonth(month) {
        return Response(false, InvalidMonth);
      }
      if Missing(days) {
        return Response(false, NoDays);
      }
      var key := month.value;
      if key !in availability {
        return Response(false, MonthNotFound(key));
      }
      var requested := RequestedDays(days.value);
      if requested.None? {
        return Response(false, InvalidDays);
      }
      var entry := availability[key];
      var newBooked := Without(entry.booked, requested.value);
      var newAvailable := SortAsc(entry.available + Without(requested.value, entry.available));
      availability := availability[key := MonthDays(newAvailable, newBooked)];
      updated := today;
      return Response(true, DaysUnbooked(key, requested.value, newAvailable, newBooked));
    }

    method UpdatePrice(season: Option<string>, rate: Option<string>, today: string) returns (r: Response)
      modifies this
      ensures (r, Contents()) == PriceUpdate(old(Contents()), season, rate, today)
    {
      var s := SeasonArg(season, DailySeasons);
      if s.None? {
        return Response(false, InvalidSeason(DailySeasons));
      }
      var v := Rate(rate);
      if v.None? {
        return Response(false, InvalidRate);
      }
      if s.value !in daily {
        return Response(false, Error("updating price"));
      }
      var oldRate := daily[s.value].rate;
      daily := daily[s.value := daily[s.value].(rate := v.value)];
      updated := today;
      return Response(true, DailyRateUpdated(s.value, oldRate, v.value));
    }

    method UpdateMonthlyPrice(season: Option<string>, rate: Option<string>, today: string) returns (r: Response)
      modifies this
      ensures (r, Contents()) == MonthlyPriceUpdate(old(Contents()), season, rate, today)
    {
      var s := SeasonArg(season, MonthlySeasons);
      if s.None? {
        return Response(false, InvalidSeason(MonthlySeasons));
      }
      var v := Rate(rate);
      if v.None? {
        return Response(false, InvalidRate);
      }
      if s.value !in monthly {
        return Response(false, Error("updating monthly price"));
      }
      var oldRate := monthly[s.value];
      monthly := monthly[s.value := v.value];
      updated := today;
      return Response(true, MonthlyRateUpdated(s.value, oldRate, v.value));
    }

    /** `processCommand`: parses the command and runs the operation it names. */
    method ProcessCommand(command: string, today: string) returns (r: Response)
      modifies this
      ensures (r, Contents()) == Processed(old(Contents()), ParseCommand(command), today)
    {
      match ParseCommand(command) {
        case HelpCmd => r := Response(true, HelpText);
        case AvailCmd(month) => r := ShowAvailability(Contents(), month);
        case BookCmd(month, days) => r := BookDays(month, days, today);
        case UnbookCmd(month, days) => r := UnbookDays(month, days, today);
        case PriceCmd(season, rate) => r := UpdatePrice(season, rate, today);
        case MonthlyCmd(season, rate) => r := UpdateMonthlyPrice(season, rate, today);
        case UnknownCmd => r := Response(false, UnknownCommand);
      }
    }
  }
}
