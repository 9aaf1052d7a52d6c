/**
 The two verb tables of the translator: the static table from strftime verbs
 to fragments of Go's example-based layout, and the table of verbs that Go's
 layout cannot express, computed afresh from one date-time value.
 */
module Specifications {
  import opened Decimal

  /** Go's `time.Weekday`: Sunday = 0 through Saturday = 6. */
  type Weekday = w: int | 0 <= w < 7

  const Sunday: Weekday := 0
  const Monday: Weekday := 1
  const Tuesday: Weekday := 2
  const Wednesday: Weekday := 3
  const Thursday: Weekday := 4
  const Friday: Weekday := 5
  const Saturday: Weekday := 6

  type YearDay = d: int | 1 <= d <= 366 witness 1
  type Hour = h: int | 0 <= h < 24
  type IsoWeek = w: int | 1 <= w <= 53 witness 1

  /**
   The quantities the computed table reads from a `time.Time`, as its
   accessors deliver them: `Year`, `ISOWeek` (year and week), `YearDay`,
   `Hour`, `Unix`, `Weekday`, and the weekday of 1 January of `Year` in the
   value's location.
   */
  datatype DateTime = DateTime(
    year: int,
    isoYear: int,
    isoWeek: IsoWeek,
    yearDay: YearDay,
    hour: Hour,
    unix: int,
    weekday: Weekday,
    jan1Weekday: Weekday)

  /** The verbs that have a Go layout equivalent. */
  const StaticVerbs: set<char> :=
    {'a', 'A', 'b', 'B', 'c', 'd', 'D', 'e', 'F', 'h', 'H', 'I', 'l', 'm', 'M', 'n',
     'p', 'P', 'r', 'R', 'S', 't', 'T', 'x', 'X', 'y', 'Y', 'z', 'Z', '+', '%'}

  /** The Go layout fragment of each static verb. */
  function LayoutFragment(verb: char): (fragment: string)
    requires verb in StaticVerbs
    ensures |fragment| >= 1
    ensures '%' in fragment <==> verb == '%'
  {
    match verb
    case 'a' => "Mon"
    case 'A' => "Monday"
    case 'b' => "Jan"
    case 'B' => "January"
    case 'c' => "Mon Jan 02 15:04:05 2006"
    case 'd' => "02"
    case 'D' => "01/02/06"
    case 'e' => "2"
    case 'F' => "2006-01-02"
    case 'h' => "Jan"
    case 'H' => "15"
    case 'I' => "03"
    case 'l' => "3"
    case 'm' => "01"
    case 'M' => "04"
    case 'n' => "\n"
    case 'p' => "PM"
    case 'P' => "pm"
    case 'r' => "03:04:05 PM"
    case 'R' => "15:04"
    case 'S' => "05"
    case 't' => "\t"
    case 'T' => "15:04:05"
    case 'x' => "01/02/06"
    case 'X' => "15:04:05"
    case 'y' => "06"
    case 'Y' => "2006"
    case 'z' => "-0700"
    case 'Z' => "MST"
    case '+' => "Mon Jan 02 15:04:05 MST 2006"
    case '%' => "%"
  }

  /** The static table: each static verb and its layout fragment. */
  const ConvSpecs: map<char, string> := map verb | verb in StaticVerbs :: LayoutFragment(verb)

  /** The verbs the computed table covers. */
  const ComputedVerbs: set<char> := {'C', 'G', 'g', 'j', 'k', 's', 'u', 'U', 'V', 'w', 'W'}

  /** Every verb belongs to exactly one of the two substitution passes. */
  lemma VerbTablesDisjoint()
    ensures forall c :: c in ComputedVerbs ==> c !in ConvSpecs
  {
  }

  /** ISO 8601 weekday number (Monday = 1 … Sunday = 7) of each Go weekday. */
  const MondayWeekday: map<Weekday, string> := map[
    Monday := "1",
    Tuesday := "2",
    Wednesday := "3",
    Thursday := "4",
    Friday := "5",
    Saturday := "6",
    Sunday := "7"
  ]

  /** A Go map index: the value stored under `w`, or the empty string when absent. */
  function MondayWeekdayOf(w: Weekday): string
  {
    if w in MondayWeekday then MondayWeekday[w] else ""
  }

  lemma {:induction false} MondayWeekdayTotal(w: Weekday)
    ensures w in MondayWeekday
    ensures MondayWeekdayOf(w) == if w == Sunday then "7" else Itoa(w)
    ensures IsDecimal(MondayWeekdayOf(w))
    ensures ParseInt(MondayWeekdayOf(w)) == if w == Sunday then 7 else w
  {
    if w == Sunday {
      assert MondayWeekdayOf(w) == Itoa(7);
      ItoaRoundTrip(7);
    } else {
      ItoaRoundTrip(w);
    }
  }

  /**
   The week number of `t` with weeks starting on `start`, as the code
   computes it: the year-day divided by 7, plus one when `start` is not
   earlier than 1 January's weekday in Go's numbering. The year-day is
   positive, so Dafny's `/` agrees with Go's truncating division; the
   round trip through `float64` is exact for these values.
   */
  function YearWeek(t: DateTime, start: Weekday): (week: int)
    ensures 0 <= week <= 53
  {
    var offset := if start >= t.jan1Weekday then 1 else 0;
    t.yearDay / 7 + offset
  }

  /**
   The week number of ISO C section 7.27.3.5 (`%U` with `start` Sunday,
   `%W` with `start` Monday): the number of days numbered `start` from
   1 January up to and including `t`, so that the first such day begins
   week 1 and the days before it are week 0.
   */
  function StandardWeek(t: DateTime, start: Weekday): (week: int)
    ensures 0 <= week <= 53
  {
    var first := 1 + (start - t.jan1Weekday + 7) % 7;
    if t.yearDay < first then 0 else (t.yearDay - first) / 7 + 1
  }

  /**
   The code's week number never strays from the standard's by more than one:
   it runs ahead of it when `start` is not before 1 January's weekday, and
   behind it otherwise.
   */
  lemma YearWeekNearStandard(t: DateTime, start: Weekday)
    ensures start >= t.jan1Weekday ==>
      StandardWeek(t, start) <= YearWeek(t, start) <= StandardWeek(t, start) + 1
    ensures start < t.jan1Weekday ==>
      YearWeek(t, start) <= StandardWeek(t, start) <= YearWeek(t, start) + 1
  {
    var d: int := t.yearDay;
    var first := 1 + (start - t.jan1Weekday + 7) % 7;
    if start >= t.jan1Weekday {
      assert first == 1 + start - t.jan1Weekday;
      assert StandardWeek(t, start) == (d + 7 - first) / 7;
      assert YearWeek(t, start) == (d + 7) / 7;
    } else {
      assert first == 8 + start - t.jan1Weekday;
      assert StandardWeek(t, start) == (d + 7 - first) / 7;
    }
  }

  /** 6 January 2019 was the first Sunday of 2019 (1 January was a Tuesday). */
  lemma YearWeekDivergesFromStandard(t: DateTime)
    requires t.yearDay == 6 && t.jan1Weekday == Tuesday
    ensures YearWeek(t, Sunday) == 0
    ensures StandardWeek(t, Sunday) == 1
  {
  }

  /** The expectations of the repository's `yearWeek` tests. */
  lemma YearWeekFixtures(t: DateTime)
    ensures t.yearDay == 59 && t.jan1Weekday == Tuesday ==>
      YearWeek(t, Sunday) == 8 && YearWeek(t, Monday) == 8 && YearWeek(t, Wednesday) == 9
    ensures t.yearDay == 2 && t.jan1Weekday == Tuesday ==> YearWeek(t, Sunday) == 0
    ensures t.yearDay == 1 && t.jan1Weekday == Monday ==> YearWeek(t, Monday) == 1
    ensures t.yearDay == 62 && t.jan1Weekday == Friday ==> YearWeek(t, Sunday) == 8
  {
  }

  /** `strconv.Itoa(isoYear)[2:4]` panics unless the numeral has at least four characters. */
  predicate IsoYearSliceable(t: DateTime)
  {
    |Itoa(t.isoYear)| >= 4
  }

  /** The text the computed table holds for `verb`, one of the computed verbs. */
  function ComputedText(t: DateTime, verb: char): string
    requires verb in ComputedVerbs && IsoYearSliceable(t)
  {
    if verb == 'C' then Itoa(TruncDiv(t.year, 100))
    else if verb == 'G' then Itoa(t.isoYear)
    else if verb == 'g' then Itoa(t.isoYear)[2..4]
    else if verb == 'j' then ZeroPad(t.yearDay, 3)
    else if verb == 'k' then Itoa(t.hour)
    else if verb == 's' then Itoa(t.unix)
    else if verb == 'u' then MondayWeekdayOf(t.weekday)
    else if verb == 'U' then ZeroPad(YearWeek(t, Sunday), 2)
    else if verb == 'V' then Itoa(t.isoWeek)
    else if verb == 'w' then Itoa(t.weekday)
    else ZeroPad(YearWeek(t, Monday), 2)
  }

  /** The computed verb table of `t`. */
  function SecondaryTable(t: DateTime): map<char, string>
    requires IsoYearSliceable(t)
  {
    map verb | verb in ComputedVerbs :: ComputedText(t, verb)
  }

  /** Builds the computed table by successive insertions into an empty map. */
  method GetSecondarySpecs(t: DateTime) returns (specs: map<char, string>)
    requires IsoYearSliceable(t)
    ensures specs == SecondaryTable(t)
  {
    specs := map[];
    var isoYear, isoWeek := t.isoYear, t.isoWeek;
    specs := specs['C' := Itoa(TruncDiv(t.year, 100))];
    specs := specs['G' := Itoa(isoYear)];
    specs := specs['g' := Itoa(isoYear)[2..4]];
    specs := specs['j' := ZeroPad(t.yearDay, 3)];
    specs := specs['k' := Itoa(t.hour)];
    specs := specs['s' := Itoa(t.unix)];
    specs := specs['u' := MondayWeekdayOf(t.weekday)];
    specs := specs['U' := ZeroPad(YearWeek(t, Sunday), 2)];
    specs := specs['V' := Itoa(isoWeek)];
    specs := specs['w' := Itoa(t.weekday)];
    specs := specs['W' := ZeroPad(YearWeek(t, Monday), 2)];
  }

  lemma SecondaryTableKeys(t: DateTime)
    requires IsoYearSliceable(t)
    ensures SecondaryTable(t).Keys == ComputedVerbs
  {
  }

  /** `C`: the year divided by 100, truncated toward zero, as an unpadded decimal. */
  lemma SecondaryCentury(t: DateTime)
    requires IsoYearSliceable(t)
    ensures IsDecimal(SecondaryTable(t)['C'])
    ensures ParseInt(SecondaryTable(t)['C']) == TruncDiv(t.year, 100)
    ensures Canonical(SecondaryTable(t)['C'])
  {
    ItoaRoundTrip(TruncDiv(t.year, 100));
  }

  /** `G`: the ISO 8601 week-numbering year as an unpadded decimal. */
  lemma SecondaryIsoYear(t: DateTime)
    requires IsoYearSliceable(t)
    ensures IsDecimal(SecondaryTable(t)['G']) && ParseInt(SecondaryTable(t)['G']) == t.isoYear
    ensures Canonical(SecondaryTable(t)['G'])
  {
    ItoaRoundTrip(t.isoYear);
  }

  /** `k`: the hour of the day, 0 to 23, unpadded (one or two digits). */
  lemma SecondaryHour(t: DateTime)
    requires IsoYearSliceable(t)
    ensures var k := SecondaryTable(t)['k'];
      IsDecimal(k) && ParseInt(k) == t.hour && Canonical(k) && 1 <= |k| <= 2
  {
    ItoaRoundTrip(t.hour);
    assert Pow10(2) == 100;
    DigitsLength(t.hour, 2);
  }

  /** `s`: the seconds since the Unix epoch, negative before 1970, unpadded. */
  lemma SecondaryEpochSeconds(t: DateTime)
    requires IsoYearSliceable(t)
    ensures IsDecimal(SecondaryTable(t)['s']) && ParseInt(SecondaryTable(t)['s']) == t.unix
    ensures Canonical(SecondaryTable(t)['s'])
  {
    ItoaRoundTrip(t.unix);
  }

  /** `V`: the ISO 8601 week number, 1 to 53, unpadded. */
  lemma SecondaryIsoWeek(t: DateTime)
    requires IsoYearSliceable(t)
    ensures var v := SecondaryTable(t)['V'];
      IsDecimal(v) && ParseInt(v) == t.isoWeek && Canonical(v) && 1 <= |v| <= 2
  {
    ItoaRoundTrip(t.isoWeek);
    assert Pow10(2) == 100;
    DigitsLength(t.isoWeek, 2);
  }

  /** `w`: the weekday, Sunday = 0 through Saturday = 6, as one digit. */
  lemma SecondaryWeekday(t: DateTime)
    requires IsoYearSliceable(t)
    ensures var w := SecondaryTable(t)['w'];
      IsDecimal(w) && ParseInt(w) == t.weekday && |w| == 1
  {
    ItoaRoundTrip(t.weekday);
  }

  /** `j`: the day of the year as exactly three digits. */
  lemma SecondaryYearDay(t: DateTime)
    requires IsoYearSliceable(t)
    ensures var j := SecondaryTable(t)['j'];
      |j| == 3 && AllDigits(j) && ParseDigits(j) == t.yearDay
  {
    var n := t.yearDay;
    assert SecondaryTable(t)['j'] == ZeroPad(n, 3);
    assert Pow10(3) == 1000;
    PaddedExact(n, 3);
  }

  /** `U`: the Sunday-start week number as exactly two digits. */
  lemma SecondarySundayWeek(t: DateTime)
    requires IsoYearSliceable(t)
    ensures var u := SecondaryTable(t)['U'];
      |u| == 2 && AllDigits(u) && ParseDigits(u) == YearWeek(t, Sunday)
  {
    var n := YearWeek(t, Sunday);
    assert SecondaryTable(t)['U'] == ZeroPad(n, 2);
    assert Pow10(2) == 100;
    PaddedExact(n, 2);
  }

  /** `W`: the Monday-start week number as exactly two digits. */
  lemma SecondaryMondayWeek(t: DateTime)
    requires IsoYearSliceable(t)
    ensures var w := SecondaryTable(t)['W'];
      |w| == 2 && AllDigits(w) && ParseDigits(w) == YearWeek(t, Monday)
  {
    var n := YearWeek(t, Monday);
    assert SecondaryTable(t)['W'] == ZeroPad(n, 2);
    assert Pow10(2) == 100;
    PaddedExact(n, 2);
  }

  /** A number below 10^width, zero-padded to `width`, is exactly `width` digits denoting it. */
  lemma PaddedExact(n: nat, width: nat)
    requires width >= 1 && n < Pow10(width)
    ensures |ZeroPad(n, width)| == width
    ensures AllDigits(ZeroPad(n, width)) && ParseDigits(ZeroPad(n, width)) == n
  {
    DigitsLength(n, width);
    ZeroPadRoundTrip(n, width);
    DigitsNoLeadingZero(n);
    var r := ZeroPad(n, width);
    assert r == Zeros(|r| - |Digits(n)|) + Digits(n);
    if |r| == |Digits(n)| {
      assert r[0] != '-';
    } else {
      assert r[0] == '0';
    }
  }

  /** `u`: the ISO weekday number, Monday = 1 through Sunday = 7. */
  lemma SecondaryIsoWeekday(t: DateTime)
    requires IsoYearSliceable(t)
    ensures var m := SecondaryTable(t);
      && m['u'] == (if t.weekday == Sunday then "7" else Itoa(t.weekday))
      && IsDecimal(m['u']) && 1 <= ParseInt(m['u']) <= 7
      && (ParseInt(m['u']) == 7 <==> t.weekday == Sunday)
  {
    MondayWeekdayTotal(t.weekday);
  }

  /** `g`: for a four-digit ISO year, the last two digits of that year. */
  lemma SecondaryShortIsoYear(t: DateTime)
    requires 1000 <= t.isoYear <= 9999
    ensures IsoYearSliceable(t)
    ensures var g := SecondaryTable(t)['g'];
      |g| == 2 && AllDigits(g) && ParseDigits(g) == t.isoYear % 100
  {
    var y := t.isoYear;
    var d1, d0 := y / 10 % 10, y % 10;
    assert y / 10 / 10 == y / 100 && y / 100 / 10 == y / 1000;
    assert Digits(y / 1000) == [DigitChar(y / 1000)];
    assert Digits(y / 100) == Digits(y / 1000) + [DigitChar(y / 100 % 10)];
    assert Digits(y / 10) == Digits(y / 100) + [DigitChar(d1)];
    assert Itoa(y) == [DigitChar(y / 1000), DigitChar(y / 100 % 10), DigitChar(d1), DigitChar(d0)];
    var g := Itoa(y)[2..4];
    assert SecondaryTable(t)['g'] == g;
    assert g == [DigitChar(d1), DigitChar(d0)];
    assert g[..1] == [DigitChar(d1)] && g[1] == DigitChar(d0);
    assert ParseDigits(g[..1]) == d1;
    assert ParseDigits(g) == 10 * d1 + d0;
    assert 10 * d1 + d0 == y % 100;
  }

  /** Beyond four digits the fixed slice no longer gives the last two digits. */
  lemma ShortIsoYearOfFiveDigitYear(t: DateTime)
    requires t.isoYear == 12019
    ensures IsoYearSliceable(t)
    ensures SecondaryTable(t)['g'] == "01"
  {
  }

  /** The expectations of the repository's `getSecondarySpecs` test: 28 February 2019, 00:00 at UTC-4. */
  lemma SecondaryTableFixture(t: DateTime)
    requires t == DateTime(2019, 2019, 9, 59, 0, 1551326400, Thursday, Tuesday)
    ensures IsoYearSliceable(t)
    ensures var m := SecondaryTable(t);
      && m['g'] == "19" && m['j'] == "059" && m['k'] == "0" && m['s'] == "1551326400"
      && m['u'] == "4" && m['w'] == "4" && m['C'] == "20" && m['G'] == "2019"
      && m['U'] == "08" && m['V'] == "9" && m['W'] == "08"
  {
    FixtureNumerals();
    assert TruncDiv(t.year, 100) == 20;
    assert YearWeek(t, Sunday) == 8 && YearWeek(t, Monday) == 8;
    assert MondayWeekdayOf(t.weekday) == "4";
    var m := SecondaryTable(t);
    assert m['C'] == Itoa(20);
    assert m['G'] == Itoa(2019);
    assert m['g'] == Itoa(2019)[2..4];
    assert m['j'] == ZeroPad(59, 3);
    assert m['k'] == Itoa(0);
    assert m['s'] == Itoa(1551326400);
    assert m['u'] == "4";
    assert m['U'] == ZeroPad(8, 2);
    assert m['V'] == Itoa(9);
    assert m['w'] == Itoa(4);
    assert m['W'] == ZeroPad(8, 2);
  }

  lemma FixtureNumerals()
    ensures Itoa(2019) == "2019" && Itoa(2019)[2..4] == "19" && Itoa(20) == "20"
    ensures Itoa(0) == "0" && Itoa(4) == "4" && Itoa(9) == "9"
    ensures ZeroPad(59, 3) == "059" && ZeroPad(8, 2) == "08"
    ensures Itoa(1551326400) == "1551326400"
  {
    FixtureYearNumerals();
    FixtureSmallNumerals();
    FixtureEpochNumeral();
  }

  lemma FixtureYearNumerals()
    ensures Itoa(2019) == "2019" && Itoa(2019)[2..4] == "19" && Itoa(20) == "20"
  {
  }

  lemma FixtureSmallNumerals()
    ensures Itoa(0) == "0" && Itoa(4) == "4" && Itoa(9) == "9"
    ensures ZeroPad(59, 3) == "059" && ZeroPad(8, 2) == "08"
  {
    assert Zeros(1) == "0";
  }

  lemma FixtureEpochNumeral()
    ensures Digits(1551326400) == "1551326400"
  {
    FixtureEpochPrefix();
    assert Digits(155132) == Digits(15513) + "2";
    assert Digits(1551326) == Digits(155132) + "6";
    assert Digits(15513264) == Digits(1551326) + "4";
    assert Digits(155132640) == Digits(15513264) + "0";
  }

  lemma FixtureEpochPrefix()
    ensures Digits(15513) == "15513"
  {
    assert Digits(15) == "15";
    assert Digits(155) == Digits(15) + "5";
    assert Digits(1551) == Digits(155) + "1";
  }
}
