/**
 * The capture date read from a file name (src/main.rs:18 and 372-395): the pattern
 * `20[012]\d-?[01]\d-?\d{2}` written as a character matcher, its non-overlapping
 * leftmost matches, and the date built from the only match when there is exactly one.
 */
module FilenameDate {
  import opened Wrappers
  import opened Text
  import opened Dates

  /** A match of the pattern: where it starts, and whether each optional hyphen was taken. */
  datatype Match = Match(start: nat, yearHyphen: bool, monthHyphen: bool)

  function MonthStart(m: Match): nat {
    m.start + 4 + (if m.yearHyphen then 1 else 0)
  }

  function DayStart(m: Match): nat {
    MonthStart(m) + 2 + (if m.monthHyphen then 1 else 0)
  }

  /** One past the last character of the match. */
  function End(m: Match): (e: nat)
    ensures m.start + 8 <= e <= m.start + 10
  {
    DayStart(m) + 2
  }

  /** The text of the pattern read at `i`, taking the hyphens exactly as `h1` and `h2` say. */
  predicate PatternAt(s: string, i: nat, h1: bool, h2: bool) {
    var m := Match(i, h1, h2);
    && End(m) <= |s|
    && s[i] == '2' && s[i + 1] == '0' && '0' <= s[i + 2] <= '2' && IsAsciiDigit(s[i + 3])
    && (h1 ==> s[i + 4] == '-')
    && '0' <= s[MonthStart(m)] <= '1' && IsAsciiDigit(s[MonthStart(m) + 1])
    && (h2 ==> s[MonthStart(m) + 2] == '-')
    && IsAsciiDigit(s[DayStart(m)]) && IsAsciiDigit(s[DayStart(m) + 1])
  }

  /** The matcher anchored at `i`: each hyphen is taken when it is there (`-?` is greedy). */
  function MatchAt(s: string, i: nat): (r: Option<Match>)
    ensures r.Some? ==> r.value.start == i && PatternAt(s, i, r.value.yearHyphen, r.value.monthHyphen)
  {
    var h1 := i + 4 < |s| && s[i + 4] == '-';
    var h2 := MonthStart(Match(i, h1, false)) + 2 < |s| && s[MonthStart(Match(i, h1, false)) + 2] == '-';
    if PatternAt(s, i, h1, h2) then Some(Match(i, h1, h2)) else None
  }

  /** Wherever the pattern can be read, the matcher finds it, and it can be read in one way only:
   *  a hyphen can never stand where the next digit is expected. */
  lemma MatchAtComplete(s: string, i: nat, h1: bool, h2: bool)
    requires PatternAt(s, i, h1, h2)
    ensures MatchAt(s, i) == Some(Match(i, h1, h2))
  {
    var m1 := Match(i, h1, false);
    assert h1 <==> i + 4 < |s| && s[i + 4] == '-';
    assert h2 <==> MonthStart(m1) + 2 < |s| && s[MonthStart(m1) + 2] == '-';
  }

  /** captures(): the leftmost match starting at `from` or later. */
  function NextMatch(s: string, from: nat): (r: Option<Match>)
    ensures r.Some? ==> from <= r.value.start && MatchAt(s, r.value.start) == r
    ensures r.Some? ==> forall j :: from <= j < r.value.start ==> MatchAt(s, j).None?
    ensures r.None? ==> forall j :: from <= j ==> MatchAt(s, j).None?
    decreases |s| - from
  {
    if from >= |s| then None
    else if MatchAt(s, from).Some? then MatchAt(s, from)
    else NextMatch(s, from + 1)
  }

  /** captures_iter(): the successive non-overlapping matches, each search resuming where the last match ended. */
  function Matches(s: string, from: nat): (ms: seq<Match>)
    ensures forall k :: 0 <= k < |ms| ==> from <= ms[k].start && NextMatch(s, ms[k].start) == Some(ms[k])
    ensures forall k :: 0 <= k < |ms| - 1 ==> End(ms[k]) <= ms[k + 1].start
    ensures ms != [] <==> NextMatch(s, from).Some?
    ensures ms != [] ==> ms[0] == NextMatch(s, from).value
    decreases |s| - from
  {
    match NextMatch(s, from)
    case None => []
    case Some(m) =>
      var rest := Matches(s, End(m));
      assert forall k :: 0 < k < |rest| + 1 ==> ([m] + rest)[k] == rest[k - 1];
      [m] + rest
  }

  /** Each match is the next one after the end of the one before, and none follows the last. */
  lemma {:induction false} MatchesChained(s: string, from: nat)
    ensures var ms := Matches(s, from);
            forall k :: 0 <= k < |ms| - 1 ==> NextMatch(s, End(ms[k])) == Some(ms[k + 1])
    ensures var ms := Matches(s, from);
            ms != [] ==> NextMatch(s, End(ms[|ms| - 1])).None?
    decreases |s| - from
  {
    var ms := Matches(s, from);
    if ms != [] {
      var m := NextMatch(s, from).value;
      var rest := Matches(s, End(m));
      assert ms == [m] + rest;
      MatchesChained(s, End(m));
      if rest == [] {
        assert ms[|ms| - 1] == m;
      } else {
        assert ms[|ms| - 1] == rest[|rest| - 1];
        forall k | 0 < k < |ms| - 1
          ensures NextMatch(s, End(ms[k])) == Some(ms[k + 1])
        {
          assert ms[k] == rest[k - 1] && ms[k + 1] == rest[k];
        }
      }
    }
  }

  /** The year and month captures. */
  function YearText(s: string, m: Match): string
    requires End(m) <= |s|
  {
    s[m.start..m.start + 4]
  }

  function MonthText(s: string, m: Match): string
    requires End(m) <= |s|
  {
    s[MonthStart(m)..MonthStart(m) + 2]
  }

  /** What the file name gives: a date, nothing, or a panic in `from_ymd`. */
  datatype NameDate = NameDate(date: DateTime) | NoNameDate | NameMonthPanic

  /** `extract_media_creation_time_from_filename`: exactly one match, the captures parsed as
   *  `i32`, and the first day of the captured month at midnight. */
  function DateFromName(name: string): (r: NameDate)
    ensures r != NoNameDate ==> |Matches(name, 0)| == 1
    ensures r.NameDate? ==> 1 <= r.date.month <= 12 && r.date.day == 1
    ensures r.NameDate? ==> r.date.hour == 0 && r.date.minute == 0 && r.date.second == 0
  {
    var ms := Matches(name, 0);
    if |ms| != 1 then NoNameDate
    else
      var m := NextMatch(name, 0).value;
      match (ParseI32(YearText(name, m)), ParseI32(MonthText(name, m)))
      case (Some(y), Some(mo)) =>
        (match FirstOfMonth(y, mo)
         case Some(dt) => NameDate(dt)
         case None => NameMonthPanic)
      case _ => NoNameDate
  }

  // ---------------------------------------------------------------------------
  // What the captures hold.

  /** The captured year: "20[012]\d" is a year from 2000 to 2029. */
  function CapturedYear(s: string, m: Match): (y: int)
    requires MatchAt(s, m.start) == Some(m)
    ensures 2000 <= y <= 2029
    ensures ParseI32(YearText(s, m)) == Some(y)
  {
    var t := YearText(s, m);
    assert AllDigits(t) by {
      assert t[0] == s[m.start] && t[1] == s[m.start + 1] && t[2] == s[m.start + 2] && t[3] == s[m.start + 3];
    }
    DigitsValueFour(t);
    ParseDigits(t);
    DigitsValue(t)
  }

  /** The captured month: "[01]\d" is a number from 0 to 19. */
  function CapturedMonth(s: string, m: Match): (mo: int)
    requires MatchAt(s, m.start) == Some(m)
    ensures 0 <= mo <= 19
    ensures ParseI32(MonthText(s, m)) == Some(mo)
  {
    var t := MonthText(s, m);
    assert AllDigits(t) by {
      assert t[0] == s[MonthStart(m)] && t[1] == s[MonthStart(m) + 1];
    }
    DigitsValueTwo(t);
    ParseDigits(t);
    DigitsValue(t)
  }

  /** The captured year and month, digit by digit. */
  lemma CapturedDigits(s: string, m: Match)
    requires MatchAt(s, m.start) == Some(m)
    ensures CapturedYear(s, m) == 1000 * DigitValue(s[m.start]) + 100 * DigitValue(s[m.start + 1])
                                  + 10 * DigitValue(s[m.start + 2]) + DigitValue(s[m.start + 3])
    ensures CapturedMonth(s, m) == 10 * DigitValue(s[MonthStart(m)]) + DigitValue(s[MonthStart(m) + 1])
  {
    var t, u := YearText(s, m), MonthText(s, m);
    assert t[0] == s[m.start] && t[1] == s[m.start + 1] && t[2] == s[m.start + 2] && t[3] == s[m.start + 3];
    assert u[0] == s[MonthStart(m)] && u[1] == s[MonthStart(m) + 1];
    DigitsValueFour(t);
    DigitsValueTwo(u);
  }

  /** The name gives nothing unless the pattern occurs exactly once; then it gives the first day
   *  of the captured year and month, or a panic when the month is 00 or 13 to 19. */
  lemma DateFromNameCases(s: string)
    ensures DateFromName(s).NoNameDate? <==> |Matches(s, 0)| != 1
    ensures |Matches(s, 0)| == 1 ==>
      var m := Matches(s, 0)[0];
      var y, mo := CapturedYear(s, m), CapturedMonth(s, m);
      DateFromName(s) == if 1 <= mo <= 12 then NameDate(DateTime(y, mo, 1, 0, 0, 0)) else NameMonthPanic
  {
    if |Matches(s, 0)| == 1 {
      var m := Matches(s, 0)[0];
      var y, mo := CapturedYear(s, m), CapturedMonth(s, m);
      assert FirstOfMonth(y, mo).Some? <==> 1 <= mo <= 12;
    }
  }

  /** A second match after the first one's end means no date, whatever the matches hold. */
  lemma SecondMatchNoDate(s: string, m: Match)
    requires NextMatch(s, 0) == Some(m) && NextMatch(s, End(m)).Some?
    ensures DateFromName(s) == NoNameDate
  {
    SingleMatch(s);
  }

  /** The name has exactly one match when there is a first one and none after its end. */
  lemma SingleMatch(s: string)
    ensures |Matches(s, 0)| == 1 <==>
              NextMatch(s, 0).Some? && NextMatch(s, End(NextMatch(s, 0).value)).None?
  {
    var ms := Matches(s, 0);
    MatchesChained(s, 0);
    if |ms| >= 2 {
      assert NextMatch(s, End(ms[0])) == Some(ms[1]);
    }
  }

  // ---------------------------------------------------------------------------
  // Examples.

  lemma NoMatchAt(s: string, i: nat)
    requires i < |s| && s[i] != '2'
    ensures MatchAt(s, i) == None
  {
  }

  lemma NextMatchSkips(s: string, from: nat)
    requires from < |s| && MatchAt(s, from) == None
    ensures NextMatch(s, from) == NextMatch(s, from + 1)
  {
  }

  /** Hyphens are taken: `2023-07-15` is July 2023. */
  lemma HyphenatedName()
    ensures DateFromName("2023-07-15") == NameDate(DateTime(2023, 7, 1, 0, 0, 0))
  {
    var s := "2023-07-15";
    var m := Match(0, true, true);
    MatchAtComplete(s, 0, true, true);
    assert Matches(s, End(m)) == [];
    assert Matches(s, 0) == [m] + Matches(s, End(m));
    DateFromNameCases(s);
    CapturedDigits(s, m);
  }

  /** The day digits must be there but are never read: day 99 still gives the first of July. */
  lemma DayIgnored()
    ensures DateFromName("20230799") == NameDate(DateTime(2023, 7, 1, 0, 0, 0))
  {
    var s := "20230799";
    var m := Match(0, false, false);
    MatchAtComplete(s, 0, false, false);
    assert Matches(s, End(m)) == [];
    assert Matches(s, 0) == [m] + Matches(s, End(m));
    DateFromNameCases(s);
    CapturedDigits(s, m);
  }

  /** Without the two day digits there is no match. */
  lemma NoDayNoDate()
    ensures DateFromName("IMG_202307.jpg") == NoNameDate
  {
    assert NextMatch("IMG_202307.jpg", 0) == None;
  }

  /** Month 13 passes the pattern and reaches `from_ymd`, which panics. */
  lemma MonthThirteenPanics()
    ensures DateFromName("20231315") == NameMonthPanic
  {
    var s := "20231315";
    var m := Match(0, false, false);
    MatchAtComplete(s, 0, false, false);
    assert Matches(s, End(m)) == [];
    assert Matches(s, 0) == [m] + Matches(s, End(m));
    DateFromNameCases(s);
    CapturedDigits(s, m);
  }

  lemma SecondDate()
    ensures NextMatch("20230715_20240101", 8) == Some(Match(9, false, false))
  {
    var s := "20230715_20240101";
    NoMatchAt(s, 8);
    NextMatchSkips(s, 8);
    MatchAtComplete(s, 9, false, false);
  }

  /** Two dates in one name give nothing. */
  lemma TwoDatesNoDate()
    ensures DateFromName("20230715_20240101") == NoNameDate
  {
    var s := "20230715_20240101";
    var m := Match(0, false, false);
    MatchAtComplete(s, 0, false, false);
    assert NextMatch(s, 0) == Some(m);
    SecondDate();
    SecondMatchNoDate(s, m);
  }
}
