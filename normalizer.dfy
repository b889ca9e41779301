/** `parseHumanReadableDate` from the UPDATE_AVAILABILITY action: the input,
    trimmed, is returned as it is when it already reads `YYYY-MM-DD`, and a
    `Month Day[,] Year` date is converted through a fixed month table. */
module DateFormat {
  import opened Results
  import opened Text

  /** `monthNameToNumber`: the twelve full names and eleven abbreviations
      ("may" has none of its own). */
  const MonthTable: map<string, string> := map[
    "january" := "01", "february" := "02", "march" := "03", "april" := "04",
    "may" := "05", "june" := "06", "july" := "07", "august" := "08",
    "september" := "09", "october" := "10", "november" := "11", "december" := "12",
    "jan" := "01", "feb" := "02", "mar" := "03", "apr" := "04",
    "jun" := "06", "jul" := "07", "aug" := "08", "sep" := "09",
    "oct" := "10", "nov" := "11", "dec" := "12"]

  /** A two-digit month number, "01" to "12". */
  predicate IsMonthNumber(m: string) {
    |m| == 2 && ((m[0] == '0' && '1' <= m[1] <= '9') || (m[0] == '1' && '0' <= m[1] <= '2'))
  }

  /** Every entry of the table is a month number. */
  lemma {:induction false} MonthTableValues(key: string)
    requires key in MonthTable
    ensures IsMonthNumber(MonthTable[key])
  {
  }

  /** `^\d{4}-\d{2}-\d{2}$` */
  predicate IsIsoDate(s: string) {
    |s| == 10 && s[4] == '-' && s[7] == '-'
    && forall i :: 0 <= i < 10 && i != 4 && i != 7 ==> IsDigit(s[i])
  }

  /** The three captures of `^(\w+)\s+(\d{1,2})(?:,|\s)\s*(\d{4})$`. */
  datatype DateParts = DateParts(word: string, day: string, year: string)

  /** Where the groups of a match sit: the word is `s[0..w]`, the day
      `s[d..e]`, the separator `s[e]`, the year `s[y..y + 4]`. */
  datatype Bounds = Bounds(w: nat, d: nat, e: nat, y: nat)

  /** `^(\w+)\s+(\d{1,2})(?:,|\s)\s*(\d{4})$`, as the positions it matches
      at. The classes `\w`, `\s` and `\d` do not overlap where it matters,
      so every greedy run must stop where its class ends and no
      backtracking can find another match. */
  function MatchBounds(s: string): (m: Option<Bounds>)
    ensures m.Some? ==> 0 < m.value.w < m.value.d < m.value.e <= m.value.d + 2
    ensures m.Some? ==> m.value.e < m.value.y && m.value.y + 4 == |s|
  {
    var w := SpanAt(s, 0, Word);
    var g := SpanAt(s, w, Space);
    var e := w + g + SpanAt(s, w + g, Digit);
    if w == 0 || g == 0 || e == w + g || e > w + g + 2 || e == |s| || (s[e] != ',' && !IsSpace(s[e])) then None
    else
      var y := e + 1 + SpanAt(s, e + 1, Space);
      if y + 4 == |s| && SpanAt(s, y, Digit) == 4 then Some(Bounds(w, w + g, e, y)) else None
  }

  /** The regular expression's match: its three captures. */
  function MatchMonthDayYear(s: string): Option<DateParts> {
    match MatchBounds(s)
    case None => None
    case Some(b) => Some(DateParts(s[0..b.w], s[b.d..b.e], s[b.y..b.y + 4]))
  }

  /** The word capture is a non-empty run of `\w`. */
  lemma {:induction false} MatchWordShape(s: string)
    requires MatchMonthDayYear(s).Some?
    ensures var p := MatchMonthDayYear(s).value;
      p.word != [] && AllIn(p.word, Word)
  {
    BoundsScans(s);
    SpanAtRun(s, 0, MatchBounds(s).value.w, Word);
  }

  /** The day capture is one or two digits. */
  lemma {:induction false} MatchDayShape(s: string)
    requires MatchMonthDayYear(s).Some?
    ensures var p := MatchMonthDayYear(s).value;
      1 <= |p.day| <= 2 && AllIn(p.day, Digit)
  {
    var b := MatchBounds(s).value;
    BoundsScans(s);
    SpanAtRun(s, b.d, b.e, Digit);
  }

  /** The year capture is four digits. */
  lemma {:induction false} MatchYearShape(s: string)
    requires MatchMonthDayYear(s).Some?
    ensures var p := MatchMonthDayYear(s).value;
      |p.year| == 4 && AllIn(p.year, Digit)
  {
    var b := MatchBounds(s).value;
    BoundsScans(s);
    SpanAtRun(s, b.y, b.y + 4, Digit);
  }

  /** The captures have the shapes of their groups. */
  lemma {:induction false} MatchShapes(s: string)
    requires MatchMonthDayYear(s).Some?
    ensures var p := MatchMonthDayYear(s).value;
      && p.word != [] && AllIn(p.word, Word)
      && 1 <= |p.day| <= 2 && AllIn(p.day, Digit)
      && |p.year| == 4 && AllIn(p.year, Digit)
  {
    MatchWordShape(s);
    MatchDayShape(s);
    MatchYearShape(s);
  }

  /** The first scan of a month-day-year string takes the word. */
  lemma {:induction false} ScanWord(word: string, gap: string, rest: string)
    requires AllIn(word, Word) && gap != [] && AllIn(gap, Space)
    ensures SpanAt(word + (gap + rest), 0, Word) == |word|
  {
    assert InClass((gap + rest)[0], Space);
    SpanAtHead(word, gap + rest, Word);
  }

  /** The second scan takes the white space after the word. */
  lemma {:induction false} ScanGap(word: string, gap: string, day: string, rest: string)
    requires AllIn(gap, Space) && day != [] && AllIn(day, Digit)
    ensures SpanAt(word + (gap + (day + rest)), |word|, Space) == |gap|
  {
    assert InClass((day + rest)[0], Digit);
    SpanAtShift(word, gap + (day + rest), 0, Space);
    SpanAtHead(gap, day + rest, Space);
  }

  /** The third scan takes the day, up to the separator. */
  lemma {:induction false} ScanDay(word: string, gap: string, day: string, sep: char, rest: string)
    requires AllIn(day, Digit) && (sep == ',' || IsSpace(sep))
    ensures SpanAt(word + (gap + (day + ([sep] + rest))), |word| + |gap|, Digit) == |day|
  {
    var r3 := [sep] + rest;
    assert r3[0] == sep && !InClass(sep, Digit);
    SpanAtHead(day, r3, Digit);
    SpanAtShift(gap, day + r3, 0, Digit);
    SpanAtShift(word, gap + (day + r3), |gap|, Digit);
  }

  /** A scan past the separator does not see what comes before it. */
  lemma {:induction false} ScanTail(word: string, gap: string, day: string, sep: char, tail: string, i: nat, k: CharClass)
    requires i <= |tail|
    ensures SpanAt(word + (gap + (day + ([sep] + tail))), |word| + |gap| + |day| + 1 + i, k)
      == SpanAt(tail, i, k)
  {
    SpanAtShift(word, gap + (day + ([sep] + tail)), |gap| + |day| + 1 + i, k);
    SpanAtShift(gap, day + ([sep] + tail), |day| + 1 + i, k);
    SpanAtShift(day, [sep] + tail, 1 + i, k);
    SpanAtShift([sep], tail, i, k);
  }

  /** The fourth scan takes the white space after the separator, the last
      one the year. */
  lemma {:induction false} ScanYear(gap2: string, year: string)
    requires AllIn(gap2, Space) && |year| == 4 && AllIn(year, Digit)
    ensures SpanAt(gap2 + year, 0, Space) == |gap2|
    ensures SpanAt(gap2 + year, |gap2|, Digit) == 4
  {
    assert InClass(year[0], Digit);
    SpanAtHead(gap2, year, Space);
    SpanAtShift(gap2, year, 0, Digit);
    SpanAtHead(year, [], Digit);
    assert year + [] == year;
  }

  /** What each bound of a match is: where a scan stops. */
  lemma {:induction false} BoundsScans(s: string)
    requires MatchBounds(s).Some?
    ensures var b := MatchBounds(s).value;
      && b.w == SpanAt(s, 0, Word)
      && b.d == b.w + SpanAt(s, b.w, Space)
      && b.e == b.d + SpanAt(s, b.d, Digit)
      && (s[b.e] == ',' || IsSpace(s[b.e]))
      && b.y == b.e + 1 + SpanAt(s, b.e + 1, Space)
      && SpanAt(s, b.y, Digit) == 4
  {
  }

  /** The match read off the scans' stopping points. */
  lemma {:induction false} MatchAt(s: string, w: nat, d: nat, e: nat, y: nat)
    requires SpanAt(s, 0, Word) == w > 0
    requires w <= |s| && w + SpanAt(s, w, Space) == d > w
    requires d <= |s| && d + SpanAt(s, d, Digit) == e && d < e <= d + 2
    requires e < |s| && (s[e] == ',' || IsSpace(s[e]))
    requires y == e + 1 + SpanAt(s, e + 1, Space)
    requires y + 4 == |s| && SpanAt(s, y, Digit) == 4
    ensures MatchBounds(s) == Some(Bounds(w, d, e, y))
  {
  }

  /** The scans on a string of the regular expression's shape stop between
      its pieces. */
  lemma {:induction false} BoundsAccept(word: string, gap: string, day: string, sep: char, gap2: string, year: string)
    requires word != [] && AllIn(word, Word)
    requires gap != [] && AllIn(gap, Space)
    requires 1 <= |day| <= 2 && AllIn(day, Digit)
    requires sep == ',' || IsSpace(sep)
    requires AllIn(gap2, Space)
    requires |year| == 4 && AllIn(year, Digit)
    ensures var w, d := |word|, |word| + |gap|;
      var e := d + |day|;
      MatchBounds(word + (gap + (day + ([sep] + (gap2 + year)))))
        == Some(Bounds(w, d, e, e + 1 + |gap2|))
  {
    var s := word + (gap + (day + ([sep] + (gap2 + year))));
    var e := |word| + |gap| + |day|;
    ScanWord(word, gap, day + ([sep] + (gap2 + year)));
    ScanGap(word, gap, day, [sep] + (gap2 + year));
    ScanDay(word, gap, day, sep, gap2 + year);
    ScanYear(gap2, year);
    ScanTail(word, gap, day, sep, gap2 + year, 0, Space);
    ScanTail(word, gap, day, sep, gap2 + year, |gap2|, Digit);
    assert s[e] == sep;
    MatchAt(s, |word|, |word| + |gap|, e, e + 1 + |gap2|);
  }

  /** Where the pieces of a month-day-year string sit in it. */
  lemma {:induction false} Pieces(word: string, gap: string, day: string, sep: char, gap2: string, year: string)
    ensures var s := word + gap + day + [sep] + gap2 + year;
      var w, g := |word|, |gap|;
      var e := w + g + |day|;
      var y := e + 1 + |gap2|;
      && s == word + (gap + (day + ([sep] + (gap2 + year))))
      && |s| == y + |year| && s[0..w] == word && s[w + g..e] == day && s[y..|s|] == year
  {
    var a := word + gap + day + [sep];
    var s := a + gap2 + year;
    assert s[..|a|] == a;
  }

  /** The pieces of `^(\w+)\s+(\d{1,2})(?:,|\s)\s*(\d{4})$`: a word, spaces,
      one or two digits, a comma or a space, optional spaces, four digits. */
  predicate DatePieces(word: string, gap: string, day: string, sep: char, gap2: string, year: string) {
    && word != [] && AllIn(word, Word)
    && gap != [] && AllIn(gap, Space)
    && 1 <= |day| <= 2 && AllIn(day, Digit)
    && (sep == ',' || IsSpace(sep))
    && AllIn(gap2, Space)
    && |year| == 4 && AllIn(year, Digit)
  }

  /** Every string of the regular expression's shape matches, with these captures. */
  lemma {:induction false} MatchAccepts(word: string, gap: string, day: string, sep: char, gap2: string, year: string)
    requires DatePieces(word, gap, day, sep, gap2, year)
    ensures MatchMonthDayYear(word + gap + day + [sep] + gap2 + year) == Some(DateParts(word, day, year))
  {
    Pieces(word, gap, day, sep, gap2, year);
    BoundsAccept(word, gap, day, sep, gap2, year);
  }

  /** A string cut at four positions is the concatenation of its pieces. */
  lemma {:induction false} Reassemble(s: string, w: nat, d: nat, e: nat, y: nat)
    requires w <= d <= e < y <= |s|
    ensures s == s[0..w] + s[w..d] + s[d..e] + [s[e]] + s[e + 1..y] + s[y..|s|]
  {
    var r := s[0..w] + s[w..d] + s[d..e] + [s[e]] + s[e + 1..y] + s[y..|s|];
    assert |r| == |s|;
    forall j | 0 <= j < |s|
      ensures r[j] == s[j]
    {
      if j < w {
      } else if j < d {
      } else if j < e {
      } else if j == e {
      } else if j < y {
      } else {
      }
    }
  }

  /** Conversely, every match is a string of that shape: the captures with
      the white space and separator between them. */
  lemma {:induction false} MatchSound(s: string) returns (gap: string, sep: char, gap2: string)
    requires MatchMonthDayYear(s).Some?
    ensures gap != [] && AllIn(gap, Space) && (sep == ',' || IsSpace(sep)) && AllIn(gap2, Space)
    ensures var p := MatchMonthDayYear(s).value;
      s == p.word + gap + p.day + [sep] + gap2 + p.year
  {
    var b := MatchBounds(s).value;
    BoundsScans(s);
    gap, sep, gap2 := s[b.w..b.d], s[b.e], s[b.e + 1..b.y];
    SpanAtRun(s, b.w, b.d, Space);
    SpanAtRun(s, b.e + 1, b.y, Space);
    Reassemble(s, b.w, b.d, b.e, b.y);
    assert s[b.y..b.y + 4] == s[b.y..|s|];
  }

  /** An ISO date holds no white space, and the month-day-year form needs some:
      no string has both shapes. */
  lemma {:induction false} ShapesDisjoint(s: string)
    requires IsIsoDate(s)
    ensures MatchMonthDayYear(s).None?
  {
    assert forall j :: 0 <= j < 4 ==> InClass(s[j], Word);
    SpanAtOf(s, 0, 4, Word);
    assert !InClass(s[4], Space);
  }

  /** How `monthNameToNumber[monthStr]` is meant to read: the table's own
      entries only. */
  function OwnEntry(key: string): (m: Option<string>)
    ensures m.Some? ==> IsMonthNumber(m.value)
  {
    if key in MonthTable then MonthTableValues(key); Some(MonthTable[key]) else None
  }

  /** What a template literal makes of `Object.prototype.constructor`. */
  const ConstructorText := "function Object() { [native code] }"

  /** `Object.prototype` members whose names are all lower case, the only
      ones a lower-cased word can reach: `constructor` and `__proto__`. */
  function InheritedMember(key: string): Option<string> {
    if key == "constructor" then Some(ConstructorText)
    else if key == "__proto__" then Some("[object Object]")
    else None
  }

  /** `monthNameToNumber[monthStr]` as JavaScript evaluates it on a plain
      object literal: an own entry, else a truthy member inherited from
      `Object.prototype`, rendered as a template literal renders it. */
  function PropertyAsWritten(key: string): Option<string> {
    if key in MonthTable then Some(MonthTable[key]) else InheritedMember(key)
  }

  /** The date a match and a month number print as: `${year}-${month}-${day}`
      with the day padded to two digits. */
  function Assemble(p: DateParts, month: string): string {
    p.year + "-" + month + "-" + Pad2(p.day)
  }

  /** A date of the matched shape and a month number assemble into an ISO
      date carrying that month. */
  lemma {:induction false} AssembleIso(p: DateParts, month: string)
    requires 1 <= |p.day| <= 2 && AllIn(p.day, Digit)
    requires |p.year| == 4 && AllIn(p.year, Digit)
    requires IsMonthNumber(month)
    ensures var r := Assemble(p, month);
      IsIsoDate(r) && r[5..7] == month
  {
    var day := Pad2(p.day);
    var r := Assemble(p, month);
    assert |day| == 2 && IsDigit(day[0]) && IsDigit(day[1]);
    forall i | 0 <= i < 10 && i != 4 && i != 7
      ensures IsDigit(r[i])
    {
      if i < 4 {
        assert r[i] == p.year[i];
      } else if i < 7 {
        assert r[i] == month[i - 5];
      } else {
        assert r[i] == day[i - 8];
      }
    }
  }

  /** `parseHumanReadableDate`, given how the month word is looked up. */
  function ParseWith(input: string, lookup: string -> Option<string>): Option<string> {
    var s := Trim(input);
    if IsIsoDate(s) then Some(s)
    else match MatchMonthDayYear(s)
      case None => None
      case Some(p) =>
        match lookup(Lower(p.word))
        case None => None
        case Some(month) => Some(Assemble(p, month))
  }

  /** `parseHumanReadableDate` exactly as written, inherited members included. */
  function ParseHumanReadableDateAsWritten(input: string): Option<string> {
    ParseWith(input, PropertyAsWritten)
  }

  /** `parseHumanReadableDate` with the lookup restricted to the table, as
      the function's comment and its callers intend. */
  function ParseHumanReadableDate(input: string): Option<string> {
    ParseWith(input, OwnEntry)
  }

  /** A string that matches the month-day-year form is no ISO date. */
  lemma {:induction false} ShapesDisjoint2(s: string)
    requires MatchMonthDayYear(s).Some?
    ensures !IsIsoDate(s)
  {
    if IsIsoDate(s) {
      ShapesDisjoint(s);
    }
  }
}
