/** The UPDATE_AVAILABILITY action: what `parseHumanReadableDate` promises,
    and the handler that validates its parameters and hands one date to the
    service. */
module UpdateAction {
  import opened Results
  import opened Text
  import opened Ledger
  import opened Store
  import opened DateFormat

  /** As written, the word "constructor" passes for a month: "constructor 1
      2025", and every other date of that shape, yields a string that is no
      date at all, where the corrected lookup rejects it. */
  lemma {:induction false} ConstructorIsNoMonth(gap: string, day: string, sep: char, gap2: string, year: string)
    requires gap != [] && AllIn(gap, Space)
    requires 1 <= |day| <= 2 && AllIn(day, Digit)
    requires sep == ',' || IsSpace(sep)
    requires AllIn(gap2, Space)
    requires |year| == 4 && AllIn(year, Digit)
    ensures var s := "constructor" + gap + day + [sep] + gap2 + year;
      && ParseHumanReadableDateAsWritten(s) == Some(year + "-" + ConstructorText + "-" + Pad2(day))
      && !IsIsoDate(ParseHumanReadableDateAsWritten(s).value)
      && ParseHumanReadableDate(s).None?
  {
    assert AllIn("constructor", Word);
    assert DatePieces("constructor", gap, day, sep, gap2, year);
    ConstructorLower();
    ConstructorLookups();
    ParseConvertsWith("constructor", gap, day, sep, gap2, year, PropertyAsWritten);
    ParseConvertsWith("constructor", gap, day, sep, gap2, year, OwnEntry);
  }

  /** A month-day-year date is converted by whatever its lower-cased word
      looks up to, and rejected when the lookup finds nothing. */
  lemma {:induction false} ParseConvertsWith(word: string, gap: string, day: string, sep: char, gap2: string, year: string,
                                             lookup: string -> Option<string>)
    requires DatePieces(word, gap, day, sep, gap2, year)
    ensures var s := word + gap + day + [sep] + gap2 + year;
      ParseWith(s, lookup) == match lookup(Lower(word))
        case None => None
        case Some(month) => Some(year + "-" + month + "-" + Pad2(day))
  {
    var s := word + gap + day + [sep] + gap2 + year;
    MatchAccepts(word, gap, day, sep, gap2, year);
    assert s[0] == word[0] && s[|s| - 1] == year[3];
    TrimWordToDigit(s);
    ShapesDisjoint2(s);
  }

  /** "constructor" is already lower case. */
  lemma {:induction false} ConstructorLower()
    ensures Lower("constructor") == "constructor"
  {
    LowerKeeps("constructor");
  }

  /** No month name or abbreviation is longer than nine letters. */
  lemma MonthKeysShort()
    ensures forall k :: k in MonthTable ==> |k| <= 9
  {
  }

  /** "constructor" is no entry of the table, but the as-written lookup finds
      the inherited member. */
  lemma ConstructorLookups()
    ensures PropertyAsWritten("constructor") == Some(ConstructorText)
    ensures OwnEntry("constructor").None?
  {
    MonthKeysShort();
  }

  /** An ISO-shaped input, after trimming, is returned as it is: no check that
      the month is 01-12 or that the day exists. */
  lemma {:induction false} IsoPassesThrough(input: string)
    requires IsIsoDate(Trim(input))
    ensures ParseHumanReadableDate(input) == Some(Trim(input))
  {
  }

  /** Every non-null result is an ISO date whose month is one of the twelve. */
  lemma {:induction false} ParseYieldsIsoDate(input: string)
    requires ParseHumanReadableDate(input).Some?
    ensures var r := ParseHumanReadableDate(input).value;
      IsIsoDate(r) && (!IsIsoDate(Trim(input)) ==> IsMonthNumber(r[5..7]))
  {
    var s := Trim(input);
    if !IsIsoDate(s) {
      var p := MatchMonthDayYear(s).value;
      MatchShapes(s);
      AssembleIso(p, OwnEntry(Lower(p.word)).value);
    }
  }

  /** Normalising a normalised date changes nothing. */
  lemma {:induction false} ParseIdempotent(input: string)
    requires ParseHumanReadableDate(input).Some?
    ensures var r := ParseHumanReadableDate(input).value;
      ParseHumanReadableDate(r) == Some(r)
  {
    var r := ParseHumanReadableDate(input).value;
    ParseYieldsIsoDate(input);
    assert IsDigit(r[0]) && IsDigit(r[9]);
    TrimNoop(r);
  }

  /** A well-shaped date whose month word is not in the table is rejected. */
  lemma {:induction false} UnknownMonthRejected(input: string)
    requires MatchMonthDayYear(Trim(input)).Some?
    requires Lower(MatchMonthDayYear(Trim(input)).value.word) !in MonthTable
    ensures ParseHumanReadableDate(input).None?
  {
    ShapesDisjoint2(Trim(input));
  }

  /** A trimmed month-day-year match whose word is in the table converts. */
  lemma {:induction false} ParseMatch(s: string, p: DateParts)
    requires Trim(s) == s && MatchMonthDayYear(s) == Some(p)
    requires Lower(p.word) in MonthTable
    ensures ParseHumanReadableDate(s) == Some(Assemble(p, MonthTable[Lower(p.word)]))
  {
    ShapesDisjoint2(s);
    ParseNonIsoMatch(s, p);
  }

  lemma {:induction false} ParseNonIsoMatch(s: string, p: DateParts)
    requires Trim(s) == s && !IsIsoDate(s) && MatchMonthDayYear(s) == Some(p)
    requires Lower(p.word) in MonthTable
    ensures ParseHumanReadableDate(s) == Some(Assemble(p, MonthTable[Lower(p.word)]))
  {
  }

  /** A string that starts with a word character and ends with a digit has
      nothing to trim. */
  lemma {:induction false} TrimWordToDigit(s: string)
    requires |s| >= 2 && InClass(s[0], Word) && InClass(s[|s| - 1], Digit)
    ensures Trim(s) == s
  {
    TrimNoop(s);
  }

  /** A month-day-year date whose word names a month in any case converts to
      `year-MM-DD`, the day padded to two digits. */
  lemma {:induction false} ParseConverts(word: string, gap: string, day: string, sep: char, gap2: string, year: string)
    requires DatePieces(word, gap, day, sep, gap2, year)
    requires Lower(word) in MonthTable
    ensures ParseHumanReadableDate(word + gap + day + [sep] + gap2 + year)
      == Some(year + "-" + MonthTable[Lower(word)] + "-" + Pad2(day))
  {
    var s := word + gap + day + [sep] + gap2 + year;
    MatchAccepts(word, gap, day, sep, gap2, year);
    assert s[0] == word[0] && s[|s| - 1] == year[3];
    TrimWordToDigit(s);
    ParseMatch(s, DateParts(word, day, year));
  }

  /** The pieces of the handler's abbreviated example. */
  lemma {:induction false} AbbreviatedPieces()
    ensures "Apr" + " " + "1" + [' '] + "" + "2025" == "Apr 1 2025"
    ensures Lower("Apr") == "apr" && MonthTable["apr"] == "04"
    ensures "2025" + "-" + "04" + "-" + Pad2("1") == "2025-04-01"
  {
  }

  /** The handler's abbreviated example. */
  lemma {:induction false} ParseAbbreviated()
    ensures ParseHumanReadableDate("Apr 1 2025") == Some("2025-04-01")
  {
    AbbreviatedPieces();
    ParseConverts("Apr", " ", "1", ' ', "", "2025");
  }

  /** The pieces of the handler's full-name example. */
  lemma {:induction false} FullNamePieces()
    ensures "April" + " " + "1" + [','] + " " + "2025" == "April 1, 2025"
    ensures Lower("April") == "april" && MonthTable["april"] == "04"
    ensures "2025" + "-" + "04" + "-" + Pad2("1") == "2025-04-01"
  {
  }

  /** The handler's full-name example, with its comma. */
  lemma {:induction false} ParseFullName()
    ensures ParseHumanReadableDate("April 1, 2025") == Some("2025-04-01")
  {
    FullNamePieces();
    ParseConverts("April", " ", "1", ',', " ", "2025");
  }

  const MissingParameters := "Please provide both dates and status to update availability"
  const InvalidStatus := "Status must be one of: available, booked, blocked, maintenance"
  const UnsupportedDate := "Date format not supported. Please use YYYY-MM-DD format or a human-readable date like \"April 1, 2025\"."
  const UpdateFailed := "Failed to update availability"

  /** The text of a successful update of `count` dates. */
  function UpdatedMessage(count: string, status: string): string {
    "Successfully updated " + count + " dates to status: " + status
  }

  /** The `data` of a successful update. */
  datatype Updated = Updated(dates: seq<string>, status: string)

  /** The handler: validates `dates` and `status`, normalises the date with
      the parser as written, inherited members included, and asks the service
      to update that single date of the default apartment without notes.
      `fault` is the engine failure the service meets. */
  method UpdateAvailabilityAction(service: AvailabilityService, dates: Option<string>, status: Option<string>, fault: Option<nat>)
    returns (r: Reply<Updated>)
    requires service.Valid()
    modifies service
    ensures service.Valid() && service.ready == old(service.ready)
    ensures Missing(dates) || Missing(status) ==> r == Failure(MissingParameters)
    ensures !Missing(dates) && !Missing(status) && ParseStatus(status.value).None? ==> r == Failure(InvalidStatus)
    ensures !Missing(dates) && !Missing(status) && ParseStatus(status.value).Some?
      && ParseHumanReadableDateAsWritten(dates.value).None?
      ==> r == Failure(UnsupportedDate)
    ensures r.Success? ==>
      && !Missing(dates) && !Missing(status) && ParseStatus(status.value).Some?
      && ParseHumanReadableDateAsWritten(dates.value).Some?
      && var date := ParseHumanReadableDateAsWritten(dates.value).value;
      && r == Success(UpdatedMessage("1", status.value), Updated([date], status.value))
      && service.rows == Upsert(old(service.rows), DefaultApartment, date, status.value, None)
    ensures !Missing(dates) && !Missing(status) && ParseStatus(status.value).Some?
      && ParseHumanReadableDateAsWritten(dates.value).Some?
      ==> && (!old(service.ready) ==> r == Failure(NotInitialized))
          && (old(service.ready) ==> (r.Success? <==> fault.None? || fault.value > 1))
          && (old(service.ready) && r.Failure? ==> r == Failure(UpdateFailed))
    ensures r.Failure? ==> service.rows == old(service.rows)
  {
    if Missing(dates) || Missing(status) {
      return Failure(MissingParameters);
    }
    if ParseStatus(status.value).None? {
      return Failure(InvalidStatus);
    }
    var datesArray: seq<string>;
    var parsed := ParseHumanReadableDateAsWritten(dates.value);
    if parsed.Some? {
      datesArray := [parsed.value];
    } else if IsIsoDate(dates.value) {
      // an ISO date is its own trim, so the parser has already returned it
      FallbackUnreachable(dates.value);
      assert false;
    } else {
      return Failure(UnsupportedDate);
    }
    UpsertAllSingle(service.rows, parsed.value, DefaultApartment, status.value, None);
    var result := service.UpdateAvailability(datesArray, status.value, DefaultApartment, None, fault);
    match result {
      case Thrown(message) => return Failure(message);
      case Ok(updated) =>
        if updated {
          var count := DecimalText(|datesArray|);
          assert count == "1";
          return Success(UpdatedMessage(count, status.value), Updated(datesArray, status.value));
        }
        return Failure(UpdateFailed);
    }
  }

  /** The handler's second `^\d{4}-\d{2}-\d{2}$` test is dead code: whatever
      it would accept, the parser has accepted already, whichever lookup it
      uses. */
  lemma {:induction false} FallbackUnreachable(dates: string)
    requires IsIsoDate(dates)
    ensures ParseHumanReadableDateAsWritten(dates) == Some(dates)
    ensures ParseHumanReadableDate(dates) == Some(dates)
  {
    assert IsDigit(dates[0]) && IsDigit(dates[9]);
    TrimNoop(dates);
  }

  /** The parser as written and the corrected one differ exactly on a
      month-day-year date whose word, lower-cased, names an inherited member;
      wherever the corrected parser answers, the one the handler calls gives
      the same answer. */
  lemma {:induction false} ParsersDifferOnlyOnInherited(input: string)
    ensures ParseHumanReadableDateAsWritten(input) != ParseHumanReadableDate(input) <==>
      var s := Trim(input);
      && !IsIsoDate(s) && MatchMonthDayYear(s).Some?
      && InheritedMember(Lower(MatchMonthDayYear(s).value.word)).Some?
    ensures ParseHumanReadableDate(input).Some? ==>
      ParseHumanReadableDateAsWritten(input) == ParseHumanReadableDate(input)
  {
    InheritedNotInTable();
  }

  /** Neither inherited member is a month name or abbreviation. */
  lemma InheritedNotInTable()
    ensures forall k :: InheritedMember(k).Some? ==> k !in MonthTable
  {
    MonthKeysShort();
    assert "__proto__"[0] != "september"[0];
  }
}
