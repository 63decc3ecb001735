/** Timestamps as dates and times (tcslog/src/util.rs): Hinnant's conversion of
    a day count into a date, and the rendering of a timestamp in the date-time
    form of section 5.6 of RFC 3339. */
module Calendar {
  import opened Bytes

  datatype Date = Date(year: nat, month: nat, day: nat)

  // -------------------------------------------- the calendar, as RFC 3339 has it

  /** Appendix C of RFC 3339. */
  predicate Leap(year: nat) { year % 4 == 0 && (year % 100 != 0 || year % 400 == 0) }

  function MonthLen(year: nat, month: nat): nat {
    if month == 2 then (if Leap(year) then 29 else 28)
    else if month == 4 || month == 6 || month == 9 || month == 11 then 30
    else 31
  }

  predicate ValidDate(d: Date) { 1 <= d.month <= 12 && 1 <= d.day <= MonthLen(d.year, d.month) }

  /** The day after. */
  function NextDay(d: Date): Date {
    if d.day < MonthLen(d.year, d.month) then d.(day := d.day + 1)
    else if d.month < 12 then Date(d.year, d.month + 1, 1)
    else Date(d.year + 1, 1, 1)
  }

  // ------------------------------------------------------- Hinnant's algorithm

  /** Where a year of a 400-year era begins, counted from its first of March. */
  function YearStart(yoe: nat): nat { 365 * yoe + yoe / 4 - yoe / 100 }

  /** Where a month begins within such a year. */
  function MonthStart(mp: nat): nat { (153 * mp + 2) / 5 }

  function YearOfEra(doe: nat): (yoe: nat)
    requires doe < 146_097
  {
    (doe - doe / 1460 + doe / 36_524 - doe / 146_096) / 365
  }

  function CivilFromDays(days: nat): Date {
    var z := days + 719_468;
    var era := z / 146_097;
    var doe := z % 146_097;
    var yoe := YearOfEra(doe);
    var year := yoe + era * 400;
    YearBounds(doe);
    var doy := doe - YearStart(yoe);
    var mp := (5 * doy + 2) / 153;
    MonthBounds(doy);
    var day := doy - MonthStart(mp) + 1;
    var month := if mp < 10 then mp + 3 else mp - 9;
    Date(if month <= 2 then year + 1 else year, month, day)
  }

  /** Years of an era by centuries and their quarters. */
  lemma YearStartSplits(c: nat, y: nat)
    requires y < 100
    ensures YearStart(100 * c + y) == 36_524 * c + 365 * y + y / 4
  {
    assert (100 * c + y) / 4 == 25 * c + y / 4;
    assert (100 * c + y) / 100 == c;
  }

  /** The year the algorithm finds is the one the day lies in. */
  lemma YearBounds(doe: nat)
    requires doe < 146_097
    ensures var yoe := YearOfEra(doe);
            && yoe < 400 && YearStart(yoe) <= doe
            && doe - YearStart(yoe) <= 365
            && (if yoe == 399 then true else doe < YearStart(yoe + 1))
  {
    if doe == 146_096 {
    } else {
      var c, r := doe / 36_524, doe % 36_524;
      CenturyBounds(c, r);
    }
  }

  lemma CenturyBounds(c: nat, r: nat)
    requires c < 4 && r < 36_524
    ensures var doe := 36_524 * c + r;
            var yoe := YearOfEra(doe);
            && 100 * c <= yoe < 100 * c + 100
            && YearStart(yoe) <= doe <= YearStart(yoe) + 365
            && doe < YearStart(yoe + 1)
  {
    var doe := 36_524 * c + r;
    var yoe := YearOfEra(doe);
    assert doe / 36_524 == c && doe / 146_096 == 0;
    QuarterBounds(c, r);
    var y := yoe - 100 * c;
    YearStartSplits(c, y);
    YearAfter(c, y);
  }

  lemma YearAfter(c: nat, y: nat)
    requires y < 100
    ensures YearStart(100 * c + y + 1) >= 36_524 * c + 365 * (y + 1) + (y + 1) / 4 - if y == 99 then 1 else 0
  {
    if y < 99 { YearStartSplits(c, y + 1); } else { YearStartSplits(c + 1, 0); }
  }

  /** Within a century: 1461 days to four years. */
  lemma QuarterBounds(c: nat, r: nat)
    requires c < 4 && r < 36_524
    ensures var doe := 36_524 * c + r;
            var y := (doe - doe / 1460 + c) / 365 - 100 * c;
            && 0 <= y < 100 && 365 * y + y / 4 <= r <= 365 * y + y / 4 + 365 && r < 365 * (y + 1) + (y + 1) / 4
  {
  }

  lemma MonthBounds(doy: nat)
    requires doy <= 365
    ensures var mp := (5 * doy + 2) / 153;
            && mp < 12 && MonthStart(mp) <= doy && (mp < 11 ==> doy < MonthStart(mp + 1))
  {
  }

  // ------------------------------------------------- it follows the calendar

  /** The date `doy` days after the first of March of a year. */
  function MarchDate(year: nat, doy: nat): Date
    requires doy <= 365
  {
    var mp := (5 * doy + 2) / 153;
    MonthBounds(doy);
    var month := if mp < 10 then mp + 3 else mp - 9;
    Date(if month <= 2 then year + 1 else year, month, doy - MonthStart(mp) + 1)
  }

  /** Days from one first of March to the next. */
  function YearLen(year: nat): nat { if Leap(year + 1) then 366 else 365 }

  lemma FourthStep(n: nat)
    ensures (n + 1) / 4 == n / 4 + if (n + 1) % 4 == 0 then 1 else 0
  {
  }

  lemma CenturyStep(n: nat)
    ensures (n + 1) / 100 == n / 100 + if (n + 1) % 100 == 0 then 1 else 0
  {
  }

  lemma EraStep(n: nat)
    ensures (n + 1) / 400 == n / 400 + if (n + 1) % 400 == 0 then 1 else 0
  {
  }

  lemma FourthRepeats(era: nat, y: nat)
    ensures (400 * era + y) % 4 == y % 4
  {
  }

  lemma CenturyRepeats(era: nat, y: nat)
    ensures (400 * era + y) % 100 == y % 100
  {
  }

  lemma EraRepeats(era: nat, y: nat)
    ensures (400 * era + y) % 400 == y % 400
  {
  }

  lemma LeapAlike(a: nat, b: nat)
    requires a % 4 == b % 4 && a % 100 == b % 100 && a % 400 == b % 400
    ensures Leap(a) == Leap(b)
  {
  }

  lemma LeapRepeats(era: nat, y: nat)
    ensures Leap(400 * era + y) == Leap(y)
  {
    hide Leap;
    FourthRepeats(era, y);
    CenturyRepeats(era, y);
    EraRepeats(era, y);
    LeapAlike(400 * era + y, y);
  }

  lemma YearLens(era: nat, yoe: nat)
    requires yoe < 400
    ensures YearLen(era * 400 + yoe) == (if yoe == 399 then 146_097 else YearStart(yoe + 1)) - YearStart(yoe)
  {
    LeapRepeats(era, yoe + 1);
    FourthStep(yoe);
    CenturyStep(yoe);
    assert yoe != 399 ==> (yoe + 1) % 400 != 0;
  }

  lemma InMarchYears(days: nat) returns (era: nat, yoe: nat, doy: nat)
    ensures yoe < 400 && doy < YearLen(era * 400 + yoe) && doy <= 365
    ensures days + 719_468 == era * 146_097 + YearStart(yoe) + doy
    ensures CivilFromDays(days) == MarchDate(era * 400 + yoe, doy)
  {
    var z := days + 719_468;
    era := z / 146_097;
    var doe := z % 146_097;
    yoe := YearOfEra(doe);
    YearBounds(doe);
    YearLens(era, yoe);
    doy := doe - YearStart(yoe);
  }

  lemma YearUnique(doe: nat, yoe: nat)
    requires yoe < 400 && YearStart(yoe) <= doe < (if yoe == 399 then 146_097 else YearStart(yoe + 1))
    ensures doe < 146_097 && YearOfEra(doe) == yoe
  {
    assert YearStart(399) < 146_097;
    if yoe < 399 { YearsGrow(yoe + 1, 399); }
    YearBounds(doe);
    var other := YearOfEra(doe);
    if other < yoe { YearsGrow(other + 1, yoe); }
    if yoe < other { YearsGrow(yoe + 1, other); }
  }

  lemma YearsGrow(a: nat, b: nat)
    requires a <= b
    ensures YearStart(a) <= YearStart(b)
  {
  }

  lemma MarchDateIs(days: nat, era: nat, yoe: nat, doy: nat)
    requires yoe < 400 && doy < YearLen(era * 400 + yoe)
    requires days + 719_468 == era * 146_097 + YearStart(yoe) + doy
    ensures CivilFromDays(days) == MarchDate(era * 400 + yoe, doy)
  {
    YearLens(era, yoe);
    var doe := YearStart(yoe) + doy;
    YearUnique(doe, yoe);
    EraOf(era, doe);
  }

  lemma EraOf(era: nat, doe: nat)
    requires doe < 146_097
    ensures (era * 146_097 + doe) / 146_097 == era && (era * 146_097 + doe) % 146_097 == doe
  {
  }

  /** Within a year beginning in March, a day leads to the next. */
  lemma MarchSteps(year: nat, doy: nat)
    requires doy < YearLen(year)
    ensures ValidDate(MarchDate(year, doy))
    ensures NextDay(MarchDate(year, doy)) ==
      if doy + 1 < YearLen(year) then MarchDate(year, doy + 1) else MarchDate(year + 1, 0)
  {
    hide Leap;
    var mp := (5 * doy + 2) / 153;
    MonthBounds(doy);
    if doy < 365 { NextMonth(doy); }
  }

  /** From one day to the next the month stays, or the next one begins. */
  lemma NextMonth(doy: nat)
    requires doy < 365
    ensures var mp, next := (5 * doy + 2) / 153, (5 * (doy + 1) + 2) / 153;
            && mp < 12 && (if mp < 11 && doy + 1 == MonthStart(mp + 1) then next == mp + 1 else next == mp)
  {
    MonthBounds(doy);
    MonthBounds(doy + 1);
  }

  lemma EpochDate()
    ensures CivilFromDays(0) == Date(1970, 1, 1)
  {
    assert YearStart(369) == 134_774;
    MarchDateIs(0, 4, 369, 306);
    assert MarchDate(1969, 306) == Date(1970, 1, 1);
  }

  /** The conversion is exact: it starts at the epoch's date, and each day's
      date is the one after the day before's. */
  lemma DateFollowsDate(days: nat)
    ensures CivilFromDays(0) == Date(1970, 1, 1)
    ensures ValidDate(CivilFromDays(days))
    ensures CivilFromDays(days + 1) == NextDay(CivilFromDays(days))
  {
    hide CivilFromDays;
    hide NextDay;
    hide MarchDate;
    hide YearLen;
    hide ValidDate;
    EpochDate();
    var era, yoe, doy := InMarchYears(days);
    var year := era * 400 + yoe;
    MarchSteps(year, doy);
    if doy + 1 < YearLen(year) {
      MarchDateIs(days + 1, era, yoe, doy + 1);
    } else {
      NewYear(days + 1, era, yoe);
    }
  }

  /** A first of March, the day after the last of February. */
  lemma NewYear(days: nat, era: nat, yoe: nat)
    requires yoe < 400 && days + 719_468 == era * 146_097 + YearStart(yoe) + YearLen(era * 400 + yoe)
    ensures CivilFromDays(days) == MarchDate(era * 400 + yoe + 1, 0)
  {
    hide CivilFromDays;
    hide MarchDate;
    YearLens(era, yoe);
    assert YearStart(0) == 0;
    assert forall year :: 0 < YearLen(year);
    if yoe < 399 {
      MarchDateIs(days, era, yoe + 1, 0);
    } else {
      MarchDateIs(days, era + 1, 0, 0);
    }
  }

  // ------------------------------------------------------ and is inverted by it

  /** Days before a year, from the start of year zero. */
  function DaysBeforeYear(year: nat): nat {
    if year == 0 then 0 else DaysBeforeYear(year - 1) + if Leap(year - 1) then 366 else 365
  }

  function DaysBeforeMonth(year: nat, month: nat): nat {
    if month <= 1 then 0 else DaysBeforeMonth(year, month - 1) + MonthLen(year, month - 1)
  }

  /** The day count of a date: the lengths of the years and months before it. */
  function DayCount(d: Date): int {
    DaysBeforeYear(d.year) + DaysBeforeMonth(d.year, d.month) + d.day - 1 - 719_528
  }

  lemma YearAdds(year: nat)
    ensures DaysBeforeMonth(year, 12) + MonthLen(year, 12) == if Leap(year) then 366 else 365
  {
    assert DaysBeforeMonth(year, 2) == 31;
    assert DaysBeforeMonth(year, 3) == if Leap(year) then 60 else 59;
    assert DaysBeforeMonth(year, 5) == DaysBeforeMonth(year, 3) + 61;
    assert DaysBeforeMonth(year, 7) == DaysBeforeMonth(year, 5) + 61;
    assert DaysBeforeMonth(year, 9) == DaysBeforeMonth(year, 7) + 62;
    assert DaysBeforeMonth(year, 11) == DaysBeforeMonth(year, 9) + 61;
  }

  lemma CountFollows(d: Date)
    requires ValidDate(d)
    ensures ValidDate(NextDay(d)) && DayCount(NextDay(d)) == DayCount(d) + 1
  {
    YearAdds(d.year);
  }

  lemma {:induction false} YearDays(year: nat)
    ensures DaysBeforeYear(year + 1) == 365 * (year + 1) + year / 4 - year / 100 + year / 400 + 1
    decreases year
  {
    if year > 0 {
      YearDays(year - 1);
      FourthStep(year - 1);
      CenturyStep(year - 1);
      EraStep(year - 1);
      LeapCounts(year);
    } else {
      assert DaysBeforeYear(1) == 366;
    }
  }

  lemma FourTimes(q: nat)
    ensures (4 * q) % 4 == 0
  {
  }

  lemma HundredFourth(c: nat)
    ensures (100 * c) % 4 == 0
  {
    var q := 25 * c;
    assert 100 * c == 4 * q;
    FourTimes(q);
  }

  lemma CenturyIsFourth(year: nat)
    ensures year % 100 == 0 ==> year % 4 == 0
  {
    HundredFourth(year / 100);
  }

  lemma EraIsCentury(year: nat)
    ensures year % 400 == 0 ==> year % 100 == 0
  {
  }

  lemma LeapCounts(year: nat)
    ensures (if Leap(year) then 1 else 0) ==
      (if year % 4 == 0 then 1 else 0) - (if year % 100 == 0 then 1 else 0) + (if year % 400 == 0 then 1 else 0)
  {
    CenturyIsFourth(year);
    EraIsCentury(year);
  }

  /** Counting the days of a date undoes the conversion. */
  lemma {:induction false} CountOfDate(days: nat)
    ensures DayCount(CivilFromDays(days)) == days
    decreases days
  {
    hide CivilFromDays;
    hide NextDay;
    hide DaysBeforeYear;
    if days == 0 {
      EpochDate();
      YearDays(1969);
    } else {
      CountOfDate(days - 1);
      DateFollowsDate(days - 1);
      CountFollows(CivilFromDays(days - 1));
    }
  }

  predicate Earlier(a: Date, b: Date) {
    a.year < b.year || (a.year == b.year && (a.month < b.month || (a.month == b.month && a.day < b.day)))
  }

  lemma {:induction false} MonthsGrow(year: nat, m: nat, n: nat)
    requires 1 <= m < n <= 13
    ensures DaysBeforeMonth(year, m) + MonthLen(year, m) <= DaysBeforeMonth(year, n)
    decreases n
  {
    if m < n - 1 { MonthsGrow(year, m, n - 1); }
  }

  lemma {:induction false} YearsBefore(a: nat, b: nat)
    requires a < b
    ensures DaysBeforeYear(a) + (if Leap(a) then 366 else 365) <= DaysBeforeYear(b)
    decreases b
  {
    if a < b - 1 { YearsBefore(a, b - 1); }
  }

  /** Later dates have larger counts. */
  lemma CountGrows(a: Date, b: Date)
    requires ValidDate(a) && ValidDate(b) && Earlier(a, b)
    ensures DayCount(a) < DayCount(b)
  {
    if a.year < b.year {
      YearsBefore(a.year, b.year);
      YearAdds(a.year);
      if a.month < 12 { MonthsGrow(a.year, a.month, 12); }
    } else if a.month < b.month {
      MonthsGrow(a.year, a.month, b.month);
    }
  }

  /** ... and the conversion undoes counting, for every date since the epoch:
      dates and day counts correspond one to one. */
  lemma DateOfCount(d: Date)
    requires ValidDate(d) && DayCount(d) >= 0
    ensures CivilFromDays(DayCount(d)) == d
  {
    var e := CivilFromDays(DayCount(d));
    CountOfDate(DayCount(d));
    DateFollowsDate(DayCount(d));
    if e != d {
      if Earlier(e, d) { CountGrows(e, d); } else { CountGrows(d, e); }
    }
  }

  // --------------------------------------------------------------- rendering

  const NANOS_PER_SEC: nat := 1_000_000_000
  const SECS_PER_DAY: nat := 86_400
  const TIMESTAMP_STR_LEN: nat := 30

  function DecimalDigit(n: nat): char
    requires n < 10
  {
    '0' + n as char
  }

  function Pow10(w: nat): nat { if w == 0 then 1 else 10 * Pow10(w - 1) }

  /** A number in at least w decimal digits, padded with zeros. */
  function Padded(n: nat, w: nat): (s: string)
    ensures |s| >= w
    decreases n + w
  {
    if n == 0 && w == 0 then ""
    else Padded(n / 10, if w == 0 then 0 else w - 1) + [DecimalDigit(n % 10)]
  }

  function WriteTimestamp(ts: u64): string {
    var secs := ts / NANOS_PER_SEC;
    var nanos := ts % NANOS_PER_SEC;
    var date := CivilFromDays(secs / SECS_PER_DAY);
    var secsOfDay := secs % SECS_PER_DAY;
    Joined(Padded(date.year, 4), Padded(date.month, 2), Padded(date.day, 2), '-') + "T"
    + Joined(Padded(secsOfDay / 3600, 2), Padded(secsOfDay % 3600 / 60, 2), Padded(secsOfDay % 60, 2), ':')
    + "." + Padded(nanos, 9) + "Z"
  }

  function Joined(a: string, b: string, c: string, sep: char): string { a + [sep] + b + [sep] + c }

  predicate IsDecimal(c: char) { '0' <= c <= '9' }

  /** What w digits say. */
  function DecimalValue(s: string): nat
    requires forall i :: 0 <= i < |s| ==> IsDecimal(s[i])
  {
    if s == "" then 0
    else
      assert IsDecimal(s[|s| - 1]);
      10 * DecimalValue(s[..|s| - 1]) + (s[|s| - 1] as int - '0' as int)
  }

  /** A number that fits in w digits is written in exactly w, and read back. */
  lemma {:induction false} PaddedFits(n: nat, w: nat)
    requires n < Pow10(w)
    ensures var s := Padded(n, w);
            |s| == w && (forall i :: 0 <= i < |s| ==> IsDecimal(s[i])) && DecimalValue(s) == n
    decreases w
  {
    if w > 0 {
      PaddedFits(n / 10, w - 1);
      var s := Padded(n, w);
      assert s[..|s| - 1] == Padded(n / 10, w - 1);
    }
  }

  /** The date and time a rendering shows. */
  datatype Shown = Shown(date: Date, hour: nat, minute: nat, second: nat, nanos: nat)

  predicate Digits(s: string, a: nat, b: nat) {
    a <= b <= |s| && forall i :: a <= i < b ==> IsDecimal(s[i])
  }

  /** The date-time form of section 5.6 of RFC 3339 in UTC, with nine digits of
      a second's fraction. */
  predicate IsDateTime(s: string) {
    && |s| == TIMESTAMP_STR_LEN
    && Digits(s, 0, 4) && s[4] == '-' && Digits(s, 5, 7) && s[7] == '-' && Digits(s, 8, 10) && s[10] == 'T'
    && Digits(s, 11, 13) && s[13] == ':' && Digits(s, 14, 16) && s[16] == ':' && Digits(s, 17, 19)
    && s[19] == '.' && Digits(s, 20, 29) && s[29] == 'Z'
  }

  function Show(s: string): Shown
    requires IsDateTime(s)
  {
    Shown(Date(DecimalValue(s[0..4]), DecimalValue(s[5..7]), DecimalValue(s[8..10])),
          DecimalValue(s[11..13]), DecimalValue(s[14..16]), DecimalValue(s[17..19]), DecimalValue(s[20..29]))
  }

  /** The timestamp a date and time stand for. */
  function Instant(t: Shown): int {
    (((DayCount(t.date) * 24 + t.hour) * 60 + t.minute) * 60 + t.second) * NANOS_PER_SEC + t.nanos
  }

  lemma JoinedParts(a: string, b: string, c: string, sep: char)
    ensures var s := Joined(a, b, c, sep);
            && |s| == |a| + |b| + |c| + 2
            && s[0..|a|] == a && s[|a|] == sep && s[|a| + 1..|a| + 1 + |b|] == b
            && s[|a| + 1 + |b|] == sep && s[|a| + |b| + 2..] == c
  {
  }

  /** Where the date, the time and the fraction lie in a rendering. */
  lemma RenderedParts(date: string, time: string, nanos: string)
    requires |date| == 10 && |time| == 8 && |nanos| == 9
    ensures var s := date + "T" + time + "." + nanos + "Z";
            && |s| == 30 && s[..10] == date && s[10] == 'T' && s[11..19] == time && s[19] == '.'
            && s[20..29] == nanos && s[29] == 'Z'
  {
  }

  lemma Within(s: string, part: string, from: nat, a: nat, b: nat)
    requires from + |part| <= |s| && s[from..from + |part|] == part && a <= b <= |part|
    ensures s[from + a..from + b] == part[a..b]
    ensures forall i :: 0 <= i < |part| ==> s[from + i] == part[i]
  {
    forall i | 0 <= i < |part| ensures s[from + i] == part[i] {
      assert s[from..from + |part|][i] == part[i];
    }
  }

  lemma DigitsFrom(s: string, a: nat, b: nat, part: string)
    requires a <= b <= |s| && s[a..b] == part && forall i :: 0 <= i < |part| ==> IsDecimal(part[i])
    ensures Digits(s, a, b)
  {
    forall i | a <= i < b ensures IsDecimal(s[i]) {
      assert s[i] == part[i - a];
    }
  }

  /** Three numbers of fixed widths between separators, found again. */
  lemma ThreeRendered(s: string, from: nat, x: nat, y: nat, z: nat, w: nat, sep: char)
    requires w <= 4 && x < Pow10(w) && y < 100 && z < 100
    requires from + w + 6 <= |s|
    requires s[from..from + w + 6] == Joined(Padded(x, w), Padded(y, 2), Padded(z, 2), sep)
    ensures Digits(s, from, from + w) && s[from + w] == sep
    ensures Digits(s, from + w + 1, from + w + 3) && s[from + w + 3] == sep && Digits(s, from + w + 4, from + w + 6)
    ensures DecimalValue(s[from..from + w]) == x
    ensures DecimalValue(s[from + w + 1..from + w + 3]) == y
    ensures DecimalValue(s[from + w + 4..from + w + 6]) == z
  {
    hide Padded;
    hide DecimalValue;
    hide Joined;
    TenPowers();
    hide Pow10;
    PaddedFits(x, w);
    PaddedFits(y, 2);
    PaddedFits(z, 2);
    var a, b, c := Padded(x, w), Padded(y, 2), Padded(z, 2);
    var part := Joined(a, b, c, sep);
    JoinedParts(a, b, c, sep);
    assert s[from..from + |part|] == part;
    Within(s, part, from, 0, w);
    Within(s, part, from, w + 1, w + 3);
    Within(s, part, from, w + 4, w + 6);
    assert part[w + 4..w + 6] == c;
    DigitsFrom(s, from, from + w, a);
    DigitsFrom(s, from + w + 1, from + w + 3, b);
    DigitsFrom(s, from + w + 4, from + w + 6, c);
  }

  /** No timestamp reaches past the year 2800. */
  lemma YearFits(days: nat)
    requires days <= 213_503
    ensures CivilFromDays(days).year < 10_000
  {
    var era, yoe, doy := InMarchYears(days);
  }

  lemma ClockParts(s: nat)
    requires s < SECS_PER_DAY
    ensures s / 3600 < 24 && s % 3600 / 60 < 60 && s % 60 < 60
    ensures (s / 3600 * 60 + s % 3600 / 60) * 60 + s % 60 == s
  {
    var hour, rest := s / 3600, s % 3600;
    var minute, second := rest / 60, rest % 60;
    assert s == 3600 * hour + rest && rest == 60 * minute + second;
    Sixtieths(60 * hour + minute, second);
  }

  lemma Sixtieths(q: nat, x: nat)
    requires x < 60
    ensures (60 * q + x) % 60 == x
  {
  }

  lemma TimeParts(ts: u64)
    ensures var secs := ts / NANOS_PER_SEC;
            && secs / SECS_PER_DAY <= 213_503
            && (secs / SECS_PER_DAY * SECS_PER_DAY + secs % SECS_PER_DAY) * NANOS_PER_SEC + ts % NANOS_PER_SEC == ts
  {
  }

  /** Every timestamp renders in exactly thirty characters of the UTC date-time
      form, and the rendering stands for that timestamp and no other. */
  lemma TimestampRenders(ts: u64)
    ensures var s := WriteTimestamp(ts);
            && IsDateTime(s)
            && var t := Show(s);
               && ValidDate(t.date) && t.hour < 24 && t.minute < 60 && t.second < 60 && t.nanos < NANOS_PER_SEC
               && Instant(t) == ts
  {
    hide Padded;
    hide DecimalValue;
    hide CivilFromDays;
    hide DayCount;
    hide Joined;
    var secs, nanos := ts / NANOS_PER_SEC, ts % NANOS_PER_SEC;
    var days, secsOfDay := secs / SECS_PER_DAY, secs % SECS_PER_DAY;
    var date := CivilFromDays(days);
    DateFollowsDate(days);
    YearFits(days);
    CountOfDate(days);
    TenPowers();
    hide Pow10;
    ClockParts(secsOfDay);
    TimeParts(ts);
    var s := WriteTimestamp(ts);
    var dateText := Joined(Padded(date.year, 4), Padded(date.month, 2), Padded(date.day, 2), '-');
    var h, m, sec := secsOfDay / 3600, secsOfDay % 3600 / 60, secsOfDay % 60;
    var timeText := Joined(Padded(h, 2), Padded(m, 2), Padded(sec, 2), ':');
    PaddedFits(date.year, 4);
    PaddedFits(date.month, 2);
    PaddedFits(date.day, 2);
    PaddedFits(h, 2);
    PaddedFits(m, 2);
    PaddedFits(sec, 2);
    PaddedFits(nanos, 9);
    JoinedParts(Padded(date.year, 4), Padded(date.month, 2), Padded(date.day, 2), '-');
    JoinedParts(Padded(h, 2), Padded(m, 2), Padded(sec, 2), ':');
    RenderedParts(dateText, timeText, Padded(nanos, 9));
    assert s[0..10] == dateText;
    ThreeRendered(s, 0, date.year, date.month, date.day, 4, '-');
    ThreeRendered(s, 11, h, m, sec, 2, ':');
    DigitsFrom(s, 20, 29, Padded(nanos, 9));
  }

  lemma TenPowers()
    ensures Pow10(2) == 100 && Pow10(4) == 10_000 && Pow10(9) == 1_000_000_000
  {
    assert Pow10(3) == 1000;
    assert Pow10(6) == 1_000_000;
  }
}
