/** The timestamp printer and parser of `agent_sessions.rs`, against a Gregorian calendar counted day by day. */
module Calendar {
  import opened Basics
  import opened Text

  const SECONDS_PER_DAY := 86_400

  // ----- the calendar as the standard describes it -----

  predicate IsLeap(y: int) {
    y % 4 == 0 && (y % 100 != 0 || y % 400 == 0)
  }

  function YearLength(y: int): (r: int) {
    if IsLeap(y) then 366 else 365
  }

  function MonthLength(y: int, m: int): (r: int) {
    if m == 2 then (if IsLeap(y) then 29 else 28)
    else if m == 4 || m == 6 || m == 9 || m == 11 then 30
    else 31
  }

  datatype Date = Date(year: int, month: int, day: int) {
    predicate Valid() {
      year >= 1970 && 1 <= month <= 12 && 1 <= day <= MonthLength(year, month)
    }
  }

  /** Days from the epoch to the first of January of `y`. */
  function YearStart(y: int): (r: int)
    requires y >= 1970
  {
    if y == 1970 then 0 else YearStart(y - 1) + YearLength(y - 1)
  }

  /** Days from the first of January of `y` to the first of month `m`. */
  function MonthStart(y: int, m: int): (r: int)
    requires 1 <= m <= 13
  {
    if m == 1 then 0 else MonthStart(y, m - 1) + MonthLength(y, m - 1)
  }

  function DayNumber(d: Date): (r: int)
    requires d.Valid()
  {
    YearStart(d.year) + MonthStart(d.year, d.month) + d.day - 1
  }

  predicate Before(a: Date, b: Date) {
    a.year < b.year || (a.year == b.year && (a.month < b.month || (a.month == b.month && a.day < b.day)))
  }

  // ----- the arithmetic of the code -----

  function TruncatingDiv(a: int, b: int): (r: int)
    requires b > 0
  {
    if a >= 0 then a / b else -((-a) / b)
  }

  /** The quotient is cut off toward zero. */
  lemma TruncatesTowardZero(a: int, b: int)
    requires b > 0
    ensures a >= 0 ==> 0 <= a - b * TruncatingDiv(a, b) < b
    ensures a <= 0 ==> -b < a - b * TruncatingDiv(a, b) <= 0
  {
    if a < 0 {
      assert -a == b * ((-a) / b) + (-a) % b;
      assert b * TruncatingDiv(a, b) == -(b * ((-a) / b));
    }
  }

  /** A checked 64-bit result. */
  function Checked(x: int): (r: Option<int>) {
    if I64_MIN <= x <= I64_MAX then Some(x) else None
  }

  function MarchMonth(m: int): (r: int) {
    if m > 2 then m - 3 else m + 9
  }

  function DayOfEra(yoe: int, monthIndex: int, day: int): (r: Option<int>) {
    var scaled :- Checked(153 * monthIndex);
    var shifted :- Checked(scaled + 2);
    var upToDay :- Checked(TruncatingDiv(shifted, 5) + day);
    var doy :- Checked(upToDay - 1);
    Checked(yoe * 365 + yoe / 4 - yoe / 100 + doy)
  }

  function DaysFromEra(era: int, doe: int): (r: Option<int>) {
    var eraDays :- Checked(era * 146_097);
    var total :- Checked(eraDays + doe);
    Checked(total - 719_468)
  }

  function DaysFromMarch(y: int, era: int, monthIndex: int, day: int): (r: Option<int>) {
    var eraStart :- Checked(era * 400);
    var yoe :- Checked(y - eraStart);
    var doe :- DayOfEra(yoe, monthIndex, day);
    DaysFromEra(era, doe)
  }

  function DaysFromCivil(year: int, month: int, day: int): (r: Option<int>) {
    var y :- if month <= 2 then Checked(year - 1) else Some(year);
    DaysFromMarch(y, y / 400, MarchMonth(month), day)
  }

  function UnixSeconds(year: int, month: int, day: int, hour: int, minute: int, second: int): (r: Option<int>) {
    var days :- DaysFromCivil(year, month, day);
    var hours :- Checked(hour * 3_600);
    var minutes :- Checked(minute * 60);
    var hm :- Checked(hours + minutes);
    var hms :- Checked(hm + second);
    var daySeconds :- Checked(days * SECONDS_PER_DAY);
    Checked(daySeconds + hms)
  }

  function YearOfEra(doe: int): (r: int) {
    (doe - doe / 1_460 + doe / 36_524 - doe / 146_096) / 365
  }

  /** Day `doy` of the year that starts in March of year `y`. */
  function DateOfMarchYear(y: int, doy: int): (r: Date) {
    var monthIndex := (5 * doy + 2) / 153;
    var day := doy - (153 * monthIndex + 2) / 5 + 1;
    var month := if monthIndex < 10 then monthIndex + 3 else monthIndex - 9;
    Date(y + (if month <= 2 then 1 else 0), month, day)
  }

  function DateOfEra(era: int, doe: int): (r: Date) {
    var yoe := YearOfEra(doe);
    DateOfMarchYear(yoe + era * 400, doe - YearOfEraStart(yoe))
  }

  function YearOfEraStart(n: int): (r: int) {
    365 * n + n / 4 - n / 100
  }

  function CivilFromDays(days: int): (r: Date) {
    var shifted := days + 719_468;
    DateOfEra(shifted / 146_097, shifted % 146_097)
  }

  // ----- the formulas count days -----

  /** Days of `n` whole years in the proleptic count from March of year 0. */
  function MarchYears(n: int): (r: int) {
    365 * n + n / 4 - n / 100 + n / 400
  }

  lemma {:induction false} YearStartClosed(y: int)
    requires y >= 1970
    ensures YearStart(y) == MarchYears(y - 1) + 365 - 719_527
  {
    if y > 1970 {
      YearStartClosed(y - 1);
      LeapStep(y - 1);
    }
  }

  lemma QuotientStep(n: int, k: int)
    requires k == 4 || k == 100 || k == 400
    ensures n / k == (n - 1) / k + if n % k == 0 then 1 else 0
  {
    if k == 4 {
      assert n / 4 == (n - 1) / 4 + if n % 4 == 0 then 1 else 0;
    } else if k == 100 {
      assert n / 100 == (n - 1) / 100 + if n % 100 == 0 then 1 else 0;
    } else {
      assert n / 400 == (n - 1) / 400 + if n % 400 == 0 then 1 else 0;
    }
  }

  lemma LeapStep(n: int)
    ensures MarchYears(n) == MarchYears(n - 1) + YearLength(n)
  {
    QuotientStep(n, 4);
    QuotientStep(n, 100);
    QuotientStep(n, 400);
    CenturiesAreFourths(n);
  }

  lemma CenturyIsFourth(n: int)
    requires n % 100 == 0
    ensures n % 4 == 0
  {
    assert n == 4 * (25 * (n / 100));
  }

  lemma FourthCenturyIsCentury(n: int)
    requires n % 400 == 0
    ensures n % 100 == 0
  {
    assert n == 100 * (4 * (n / 400));
  }

  lemma CenturiesAreFourths(n: int)
    ensures n % 100 == 0 ==> n % 4 == 0
    ensures n % 400 == 0 ==> n % 100 == 0
  {
    if n % 100 == 0 { CenturyIsFourth(n); }
    if n % 400 == 0 { FourthCenturyIsCentury(n); }
  }

  lemma EraForm(y: int)
    ensures var era, yoe := y / 400, y % 400;
            era * 146_097 + yoe * 365 + yoe / 4 - yoe / 100 == MarchYears(y)
  {
    var era, yoe := y / 400, y % 400;
    assert y == 400 * era + yoe;
    assert y / 4 == 100 * era + yoe / 4;
    assert y / 100 == 4 * era + yoe / 100;
  }

  lemma MonthStartClosed(y: int, m: int)
    requires 1 <= m <= 12
    ensures MonthStart(y, m) == if m > 2 then YearLength(y) - 306 + (153 * (m - 3) + 2) / 5
                                else (153 * (m + 9) + 2) / 5 - 306
  {
    if m > 1 {
      MonthStartClosed(y, m - 1);
    }
  }

  /** The code's day formula, without the checks. */
  lemma DayArithmetic(d: Date)
    requires d.Valid()
    ensures var y := if d.month <= 2 then d.year - 1 else d.year;
            DayNumber(d) == MarchYears(y) + (153 * MarchMonth(d.month) + 2) / 5 + d.day - 1 - 719_468
  {
    YearStartClosed(d.year);
    LeapStep(d.year);
    MonthStartClosed(d.year, d.month);
  }

  lemma DayOfEraFits(yoe: int, monthIndex: int, day: int)
    requires 0 <= yoe < 400 && 0 <= monthIndex <= 11 && 1 <= day <= 31
    ensures var doe := yoe * 365 + yoe / 4 - yoe / 100 + (153 * monthIndex + 2) / 5 + day - 1;
            0 <= doe <= 147_000 && DayOfEra(yoe, monthIndex, day) == Some(doe)
  {
  }

  lemma DaysFromEraFit(era: int, doe: int)
    requires 0 <= era && 0 <= doe <= 147_000
    ensures DaysFromEra(era, doe)
         == if era * 146_097 + doe <= I64_MAX then Some(era * 146_097 + doe - 719_468) else None
  {
  }

  lemma DaysFromMarchFit(y: int, era: int, yoe: int, monthIndex: int, day: int)
    requires 0 <= era && 0 <= yoe < 400 && y == 400 * era + yoe <= I64_MAX && 0 <= monthIndex <= 11 && 1 <= day <= 31
    ensures var count := era * 146_097 + yoe * 365 + yoe / 4 - yoe / 100 + (153 * monthIndex + 2) / 5 + day - 1;
            DaysFromMarch(y, era, monthIndex, day) == if count <= I64_MAX then Some(count - 719_468) else None
  {
    DayOfEraFits(yoe, monthIndex, day);
    DaysFromEraFit(era, DayOfEra(yoe, monthIndex, day).value);
  }

  lemma FromMarch(d: Date, y: int)
    requires d.Valid() && d.year <= I64_MAX && y == if d.month <= 2 then d.year - 1 else d.year
    ensures DaysFromCivil(d.year, d.month, d.day) == DaysFromMarch(y, y / 400, MarchMonth(d.month), d.day)
  {
  }

  /** The code's day formula counts the days of the calendar, and fails exactly when the count with its offset
      does not fit in 64 bits. */
  lemma DayFormulaCountsDays(d: Date)
    requires d.Valid() && d.year <= I64_MAX
    ensures DaysFromCivil(d.year, d.month, d.day)
         == if DayNumber(d) + 719_468 <= I64_MAX then Some(DayNumber(d)) else None
  {
    var y := if d.month <= 2 then d.year - 1 else d.year;
    FromMarch(d, y);
    DayArithmetic(d);
    EraForm(y);
    DaysFromMarchFit(y, y / 400, y % 400, MarchMonth(d.month), d.day);
  }

  // ----- the calendar is ordered -----

  lemma {:induction false} MonthsAreOrdered(y: int, m: int, n: int)
    requires 1 <= m < n <= 13
    ensures MonthStart(y, m) + MonthLength(y, m) <= MonthStart(y, n)
  {
    if n > m + 1 {
      MonthsAreOrdered(y, m, n - 1);
    }
  }

  lemma MonthsFillTheYear(y: int)
    ensures MonthStart(y, 13) == YearLength(y)
  {
    MonthStartClosed(y, 12);
    assert MonthStart(y, 13) == MonthStart(y, 12) + 31;
  }

  lemma {:induction false} YearsAreOrdered(y: int, z: int)
    requires 1970 <= y < z
    ensures YearStart(y) + YearLength(y) <= YearStart(z)
  {
    if z > y + 1 {
      YearsAreOrdered(y, z - 1);
    }
  }

  lemma DatesAreOrdered(a: Date, b: Date)
    requires a.Valid() && b.Valid() && Before(a, b)
    ensures DayNumber(a) < DayNumber(b)
  {
    MonthsFillTheYear(a.year);
    MonthsAreOrdered(a.year, a.month, 13);
    if a.year < b.year {
      YearsAreOrdered(a.year, b.year);
      if b.month > 1 {
        MonthsAreOrdered(b.year, 1, b.month);
      }
    } else if a.month < b.month {
      MonthsAreOrdered(a.year, a.month, b.month);
    }
  }

  lemma DayNumberIsInjective(a: Date, b: Date)
    requires a.Valid() && b.Valid() && DayNumber(a) == DayNumber(b)
    ensures a == b
  {
    if Before(a, b) {
      DatesAreOrdered(a, b);
    } else if Before(b, a) {
      DatesAreOrdered(b, a);
    }
  }

  // ----- the printer's date -----

  /** A day of four-year cycle `t` of century `c` of an era. */
  predicate InCycle(c: int, t: int, u: int) {
    0 <= c <= 3 && 0 <= t <= 24 && 0 <= u <= 1_460 && (t == 24 && u == 1_460 ==> c == 3)
  }

  lemma LeapDaysPassed(c: int, t: int, u: int)
    requires InCycle(c, t, u)
    ensures var doe, carry := 36_524 * c + 1_461 * t + u, if 24 * c + t + u >= 1_460 then 1 else 0;
            doe / 1_460 == 25 * c + t + carry
  {
    var carry := if 24 * c + t + u >= 1_460 then 1 else 0;
    assert 36_524 * c + 1_461 * t + u == 1_460 * (25 * c + t + carry) + (24 * c + t + u - 1_460 * carry);
  }

  lemma CenturiesPassed(c: int, t: int, u: int)
    requires InCycle(c, t, u)
    ensures var doe := 36_524 * c + 1_461 * t + u;
            doe / 36_524 - doe / 146_096 == c
  {
    var doe := 36_524 * c + 1_461 * t + u;
    var last := if doe == 146_096 then 1 else 0;
    assert 36_524 * (c + last) <= doe < 36_524 * (c + last + 1);
  }

  lemma YearsInCycle(u: int, carry: int, years: int)
    requires 0 <= u <= 1_460 && 0 <= carry <= 1 && (carry == 1 ==> u >= 1_364) && (u == 1_460 ==> carry == 1)
    ensures (365 * years + (u - carry)) / 365 == years + Min(u / 365, 3)
  {
    assert 365 * Min(u / 365, 3) <= u - carry < 365 * (Min(u / 365, 3) + 1);
  }

  /** The code finds the year of any day of an era. */
  lemma YearOfEraInCycle(c: int, t: int, u: int)
    requires InCycle(c, t, u)
    ensures var doe, j := 36_524 * c + 1_461 * t + u, Min(u / 365, 3);
            YearOfEra(doe) == 100 * c + 4 * t + j
  {
    LeapDaysPassed(c, t, u);
    CenturiesPassed(c, t, u);
    YearsInCycle(u, if 24 * c + t + u >= 1_460 then 1 else 0, 100 * c + 4 * t);
  }

  lemma CycleBounds(c: int, t: int, u: int)
    requires InCycle(c, t, u)
    ensures var doe, yoe := 36_524 * c + 1_461 * t + u, 100 * c + 4 * t + Min(u / 365, 3);
            0 <= yoe <= 399 && YearOfEraStart(yoe) <= doe < YearOfEraStart(yoe) + YearLength(yoe + 1)
  {
    var j := Min(u / 365, 3);
    var yoe := 100 * c + 4 * t + j;
    assert yoe / 4 == 25 * c + t;
    assert yoe / 100 == c;
    if u == 1_460 {
      assert yoe + 1 == 4 * (25 * c + t + 1);
      assert t < 24 ==> (yoe + 1) % 100 == 4 * (t + 1);
    }
  }

  lemma CycleOf(doe: int) returns (c: int, t: int, u: int)
    requires 0 <= doe < 146_097
    ensures InCycle(c, t, u) && doe == 36_524 * c + 1_461 * t + u
  {
    c := if doe == 146_096 then 3 else doe / 36_524;
    var r := doe - 36_524 * c;
    t, u := r / 1_461, r % 1_461;
  }

  lemma YearOfEraBounds(doe: int)
    requires 0 <= doe < 146_097
    ensures var yoe := YearOfEra(doe);
            0 <= yoe <= 399 && YearOfEraStart(yoe) <= doe < YearOfEraStart(yoe) + YearLength(yoe + 1)
  {
    var c, t, u := CycleOf(doe);
    YearOfEraInCycle(c, t, u);
    CycleBounds(c, t, u);
  }

  lemma MonthAndDay(y: int, doy: int)
    requires 0 <= doy < 365 || (doy == 365 && IsLeap(y + 1))
    ensures var d := DateOfMarchYear(y, doy);
            && 1 <= d.month <= 12 && 1 <= d.day <= MonthLength(d.year, d.month)
            && y == (if d.month <= 2 then d.year - 1 else d.year)
            && (153 * MarchMonth(d.month) + 2) / 5 + d.day - 1 == doy
  {
  }

  lemma {:induction false} MarchYearsGrow(y: int, z: int)
    requires y <= z
    ensures MarchYears(y) <= MarchYears(z)
    decreases z - y
  {
    if y < z {
      LeapStep(z);
      MarchYearsGrow(y, z - 1);
    }
  }

  lemma DateInMarchYear(y: int, doy: int)
    requires 0 <= doy < 365 || (doy == 365 && IsLeap(y + 1))
    requires MarchYears(y) + doy >= 719_468
    ensures var d := DateOfMarchYear(y, doy);
            d.Valid() && DayNumber(d) == MarchYears(y) + doy - 719_468
  {
    MonthAndDay(y, doy);
    if y < 1969 {
      MarchYearsGrow(y, 1968);
    }
    DayArithmetic(DateOfMarchYear(y, doy));
  }

  lemma QuotientsOfEras(a: int, era: int)
    ensures (a + era * 400) / 4 == a / 4 + 100 * era && (a + era * 400) % 4 == a % 4
    ensures (a + era * 400) / 100 == a / 100 + 4 * era && (a + era * 400) % 100 == a % 100
    ensures (a + era * 400) / 400 == a / 400 + era && (a + era * 400) % 400 == a % 400
  {
  }

  lemma DateInEra(era: int, yoe: int, doy: int)
    requires 0 <= yoe <= 399 && 0 <= doy < YearLength(yoe + 1)
    requires era * 146_097 + YearOfEraStart(yoe) + doy >= 719_468
    ensures var d := DateOfMarchYear(yoe + era * 400, doy);
            d.Valid() && DayNumber(d) == era * 146_097 + YearOfEraStart(yoe) + doy - 719_468
  {
    QuotientsOfEras(yoe, era);
    QuotientsOfEras(yoe + 1, era);
    DateInMarchYear(yoe + era * 400, doy);
  }

  lemma DateOfEraIsRight(era: int, doe: int)
    requires 0 <= doe < 146_097 && era * 146_097 + doe >= 719_468
    ensures DateOfEra(era, doe).Valid()
    ensures DayNumber(DateOfEra(era, doe)) == era * 146_097 + doe - 719_468
  {
    YearOfEraBounds(doe);
    var yoe := YearOfEra(doe);
    var doy := doe - YearOfEraStart(yoe);
    assert DateOfEra(era, doe) == DateOfMarchYear(yoe + era * 400, doy);
    DateInEra(era, yoe, doy);
  }

  /** The printed date is a date of the calendar, and the one that many days after the epoch. */
  lemma PrintedDateIsRight(days: int)
    requires 0 <= days
    ensures CivilFromDays(days).Valid()
    ensures DayNumber(CivilFromDays(days)) == days
  {
    var era, doe := (days + 719_468) / 146_097, (days + 719_468) % 146_097;
    EraSplit(days + 719_468);
    DateOfEraIsRight(era, doe);
  }

  lemma EraSplit(shifted: int)
    ensures shifted / 146_097 * 146_097 + shifted % 146_097 == shifted && 0 <= shifted % 146_097 < 146_097
  {
  }

  /** Reading a date back: the code's two conversions are inverse on the whole calendar from 1970 on. */
  lemma CivilRoundTrip(d: Date)
    requires d.Valid()
    ensures DayNumber(d) >= 0
    ensures CivilFromDays(DayNumber(d)) == d
  {
    if Before(Date(1970, 1, 1), d) {
      DatesAreOrdered(Date(1970, 1, 1), d);
    }
    PrintedDateIsRight(DayNumber(d));
    DayNumberIsInjective(CivilFromDays(DayNumber(d)), d);
  }

  // ----- reading and printing texts -----

  datatype Moment = Moment(date: Date, hour: int, minute: int, second: int) {
    predicate Valid() {
      date.Valid() && 0 <= hour < 24 && 0 <= minute < 60 && 0 <= second < 60
    }

    /** Seconds since the epoch, counted by the calendar. */
    function Seconds(): (r: int)
      requires Valid()
    {
      DayNumber(date) * SECONDS_PER_DAY + hour * 3_600 + minute * 60 + second
    }
  }

  predicate IsZone(c: char) {
    c == 'Z' || c == '+' || c == '-'
  }

  function ZoneAt(s: string): (k: nat)
    ensures k <= |s|
  {
    if s == [] || IsZone(s[0]) then 0 else 1 + ZoneAt(s[1..])
  }

  datatype Triple = Triple(first: int, second: int, third: int)

  function ParseDate(date: string): (r: Option<Triple>) {
    var parts := SplitOn(date, '-');
    if |parts| < 3 then None
    else
      var year :- ParseI64(parts[0]);
      var month :- ParseI64(parts[1]);
      var day :- ParseI64(parts[2]);
      Some(Triple(year, month, day))
  }

  /** The time up to its zone and fraction, which are dropped. Seconds may be missing. */
  function ParseTime(rest: string): (r: Option<Triple>) {
    var parts := SplitOn(SplitOn(rest[..ZoneAt(rest)], '.')[0], ':');
    if |parts| < 2 then None
    else
      var hour :- ParseI64(parts[0]);
      var minute :- ParseI64(parts[1]);
      var second :- ParseI64(if |parts| > 2 then parts[2] else "0");
      Some(Triple(hour, minute, second))
  }

  /** The seconds of a date and a time, if both are there. */
  function SecondsOf(date: Option<Triple>, time: Option<Triple>): (r: Option<int>)
    ensures r.Some? ==> date.Some? && time.Some?
  {
    if date.None? || time.None? then None
    else
      var d, t := date.value, time.value;
      UnixSeconds(d.first, d.second, d.third, t.first, t.second, t.third)
  }

  /** `parse_iso8601_to_unix_secs`. */
  function ParseIso8601(iso: string): (r: Option<int>) {
    var t := IndexOf(iso, 'T');
    if t == |iso| then None else SecondsOf(ParseDate(iso[..t]), ParseTime(iso[t + 1..]))
  }

  function DateText(d: Date): (r: string)
    requires d.Valid()
  {
    Padded(d.year, 4) + "-" + (Padded(d.month, 2) + "-" + Padded(d.day, 2))
  }

  function TimeText(m: Moment): (r: string)
    requires m.Valid()
  {
    Padded(m.hour, 2) + ":" + (Padded(m.minute, 2) + ":" + Padded(m.second, 2))
  }

  /** A moment as RFC 3339 writes it, up to the fraction and the zone. */
  function MomentText(m: Moment): (r: string)
    requires m.Valid()
  {
    DateText(m.date) + "T" + TimeText(m)
  }

  function MomentOf(seconds: nat): (m: Moment)
    ensures m.Valid()
  {
    PrintedDateIsRight(seconds / SECONDS_PER_DAY);
    var secondsOfDay := seconds % SECONDS_PER_DAY;
    Moment(CivilFromDays(seconds / SECONDS_PER_DAY),
           secondsOfDay / 3_600, secondsOfDay % 3_600 / 60, secondsOfDay % 60)
  }

  /** `unix_millis_to_iso8601`. */
  function UnixMillisToIso8601(millis: nat): (r: string) {
    MomentText(MomentOf(millis / 1_000)) + ("." + Padded(millis % 1_000, 3) + "Z")
  }

  /** On the calendar the parser's arithmetic is the calendar's, and fails exactly on 64-bit overflow. */
  lemma ArithmeticIsExact(m: Moment)
    requires m.Valid() && m.date.year <= I64_MAX
    ensures UnixSeconds(m.date.year, m.date.month, m.date.day, m.hour, m.minute, m.second) == Checked(m.Seconds())
  {
    DayFormulaCountsDays(m.date);
    CivilRoundTrip(m.date);
  }

  lemma ClockRoundTrip(days: int, hour: int, minute: int, second: int)
    requires 0 <= hour < 24 && 0 <= minute < 60 && 0 <= second < 60
    ensures var total := days * SECONDS_PER_DAY + hour * 3_600 + minute * 60 + second;
            && total / SECONDS_PER_DAY == days
            && total % SECONDS_PER_DAY / 3_600 == hour
            && total % SECONDS_PER_DAY % 3_600 / 60 == minute
            && total % SECONDS_PER_DAY % 60 == second
  {
    var ofDay := hour * 3_600 + minute * 60 + second;
    assert 0 <= ofDay < SECONDS_PER_DAY;
    var total := days * SECONDS_PER_DAY + ofDay;
    assert total % SECONDS_PER_DAY == ofDay;
    assert ofDay % 3_600 == minute * 60 + second;
    assert ofDay == (hour * 60 + minute) * 60 + second;
  }

  lemma MomentRoundTrip(m: Moment)
    requires m.Valid()
    ensures m.Seconds() >= 0 && MomentOf(m.Seconds()) == m
  {
    CivilRoundTrip(m.date);
    ClockRoundTrip(DayNumber(m.date), m.hour, m.minute, m.second);
  }

  lemma ClockSplit(seconds: int)
    ensures var ofDay := seconds % SECONDS_PER_DAY;
            seconds == seconds / SECONDS_PER_DAY * SECONDS_PER_DAY
                       + ofDay / 3_600 * 3_600 + ofDay % 3_600 / 60 * 60 + ofDay % 60
  {
    var ofDay := seconds % SECONDS_PER_DAY;
    var ofHour := ofDay % 3_600;
    assert ofDay == (ofDay / 3_600 * 60) * 60 + ofHour;
    assert ofDay % 60 == ofHour % 60;
  }

  lemma MomentOfIsRight(seconds: nat)
    ensures MomentOf(seconds).Seconds() == seconds
  {
    PrintedDateIsRight(seconds / SECONDS_PER_DAY);
    ClockSplit(seconds);
  }

  lemma SplitOne(a: string, c: char)
    requires c !in a
    ensures SplitOn(a, c) == [a]
  {
    IndexOfNone(a, c);
  }

  lemma SplitThree(a: string, b: string, d: string, c: char)
    requires c !in a && c !in b && c !in d
    ensures SplitOn(a + [c] + (b + [c] + d), c) == [a, b, d]
  {
    SplitHead(a, b + [c] + d, c);
    SplitHead(b, d, c);
    SplitOne(d, c);
  }

  lemma {:induction false} ZoneAfter(time: string, tail: string)
    requires forall c :: c in time ==> !IsZone(c)
    ensures ZoneAt(time + tail) == |time| + ZoneAt(tail)
  {
    if time == [] {
      assert time + tail == tail;
    } else {
      assert (time + tail)[1..] == time[1..] + tail;
      ZoneAfter(time[1..], tail);
    }
  }

  /** Nothing after the seconds is looked at. */
  lemma TailIsDropped(time: string, tail: string)
    requires forall c :: c in time ==> !IsZone(c) && c != '.'
    requires tail == [] || tail[0] == 'Z' || tail[0] == '+' || tail[0] == '-' || tail[0] == '.'
    ensures SplitOn((time + tail)[..ZoneAt(time + tail)], '.')[0] == time
  {
    ZoneAfter(time, tail);
    var kept := (time + tail)[..ZoneAt(time + tail)];
    assert kept == time + tail[..ZoneAt(tail)];
    if tail != [] && tail[0] == '.' {
      assert kept == time + ['.'] + tail[1..ZoneAt(tail)];
      SplitHead(time, tail[1..ZoneAt(tail)], '.');
    } else {
      assert kept == time;
      SplitOne(time, '.');
    }
  }

  lemma FieldIsRead(n: nat, width: nat)
    ensures n <= I64_MAX ==> ParseI64(Padded(n, width)) == Some(n)
    ensures n > I64_MAX ==> ParseI64(Padded(n, width)) == None
    ensures forall c :: c in Padded(n, width) ==> IsDigit(c)
  {
    var s := Padded(n, width);
    assert IsDigit(s[0]);
  }

  lemma DateFieldsAreRead(year: string, month: string, day: string)
    requires AllDigits(year) && AllDigits(month) && AllDigits(day)
    ensures ParseDate(year + "-" + (month + "-" + day))
         == if ParseI64(year).Some? && ParseI64(month).Some? && ParseI64(day).Some?
            then Some(Triple(ParseI64(year).value, ParseI64(month).value, ParseI64(day).value)) else None
  {
    SplitThree(year, month, day, '-');
  }

  lemma DatesHaveNoMarker(year: string, month: string, day: string)
    requires AllDigits(year) && AllDigits(month) && AllDigits(day)
    ensures 'T' !in year + "-" + (month + "-" + day)
  {
    assert forall c :: c in year + "-" + (month + "-" + day) ==> IsDigit(c) || c == '-';
  }

  lemma TimeFieldsAreRead(hour: string, minute: string, second: string, tail: string)
    requires AllDigits(hour) && AllDigits(minute) && AllDigits(second)
    requires ParseI64(hour).Some? && ParseI64(minute).Some? && ParseI64(second).Some?
    requires tail == [] || tail[0] == 'Z' || tail[0] == '+' || tail[0] == '-' || tail[0] == '.'
    ensures ParseTime(hour + ":" + (minute + ":" + second) + tail)
         == Some(Triple(ParseI64(hour).value, ParseI64(minute).value, ParseI64(second).value))
  {
    var time := hour + ":" + (minute + ":" + second);
    assert forall c :: c in time ==> IsDigit(c) || c == ':';
    TailIsDropped(time, tail);
    SplitThree(hour, minute, second, ':');
  }

  lemma DateIsRead(d: Date)
    requires d.Valid()
    ensures ParseDate(DateText(d)) == if d.year <= I64_MAX then Some(Triple(d.year, d.month, d.day)) else None
    ensures 'T' !in DateText(d)
  {
    FieldIsRead(d.year, 4);
    FieldIsRead(d.month, 2);
    FieldIsRead(d.day, 2);
    DateFieldsAreRead(Padded(d.year, 4), Padded(d.month, 2), Padded(d.day, 2));
    DatesHaveNoMarker(Padded(d.year, 4), Padded(d.month, 2), Padded(d.day, 2));
  }

  lemma TimeIsRead(m: Moment, tail: string)
    requires m.Valid()
    requires tail == [] || tail[0] == 'Z' || tail[0] == '+' || tail[0] == '-' || tail[0] == '.'
    ensures ParseTime(TimeText(m) + tail) == Some(Triple(m.hour, m.minute, m.second))
  {
    FieldIsRead(m.hour, 2);
    FieldIsRead(m.minute, 2);
    FieldIsRead(m.second, 2);
    TimeFieldsAreRead(Padded(m.hour, 2), Padded(m.minute, 2), Padded(m.second, 2), tail);
  }

  lemma IsoIsParsed(date: string, rest: string)
    requires 'T' !in date
    ensures ParseIso8601(date + "T" + rest)
         == if ParseDate(date).None? || ParseTime(rest).None? then None
            else var d, t := ParseDate(date).value, ParseTime(rest).value;
                 UnixSeconds(d.first, d.second, d.third, t.first, t.second, t.third)
  {
    var iso := date + "T" + rest;
    IndexOfFirst(date, rest, 'T');
    assert iso[..|date|] == date && iso[|date| + 1..] == rest;
  }

  /** Every calendar moment from 1970 on reads as its seconds, whatever fraction or zone follows; the parser
      fails on it exactly when the seconds do not fit in 64 bits. */
  lemma MomentIsRead(m: Moment, tail: string)
    requires m.Valid()
    requires tail == [] || tail[0] == 'Z' || tail[0] == '+' || tail[0] == '-' || tail[0] == '.'
    ensures ParseIso8601(MomentText(m) + tail) == Checked(m.Seconds())
  {
    TimeIsRead(m, tail);
    TimeReadsMoment(m, TimeText(m) + tail);
    assert MomentText(m) + tail == DateText(m.date) + "T" + (TimeText(m) + tail);
  }

  lemma MinutesAreRead(hour: string, minute: string)
    requires AllDigits(hour) && AllDigits(minute) && ParseI64(hour).Some? && ParseI64(minute).Some?
    ensures ParseTime(hour + ":" + minute + "Z") == Some(Triple(ParseI64(hour).value, ParseI64(minute).value, 0))
  {
    ZeroIsRead();
    TailIsDropped(hour + ":" + minute, "Z");
    SplitHead(hour, minute, ':');
    SplitOne(minute, ':');
  }

  /** A time without seconds is read at its full minute. */
  lemma MinuteIsRead(m: Moment)
    requires m.Valid() && m.second == 0
    ensures ParseIso8601(DateText(m.date) + "T" + (Padded(m.hour, 2) + ":" + Padded(m.minute, 2) + "Z"))
         == Checked(m.Seconds())
  {
    FieldIsRead(m.hour, 2);
    FieldIsRead(m.minute, 2);
    MinutesAreRead(Padded(m.hour, 2), Padded(m.minute, 2));
    TimeReadsMoment(m, Padded(m.hour, 2) + ":" + Padded(m.minute, 2) + "Z");
  }

  /** A date and anything that reads as the time. */
  lemma TimeReadsMoment(m: Moment, rest: string)
    requires m.Valid() && ParseTime(rest) == Some(Triple(m.hour, m.minute, m.second))
    ensures ParseIso8601(DateText(m.date) + "T" + rest) == Checked(m.Seconds())
  {
    DateIsRead(m.date);
    IsoIsParsed(DateText(m.date), rest);
    if m.date.year <= I64_MAX {
      ArithmeticIsExact(m);
    } else {
      YearsAreDays(m.date);
    }
  }

  lemma ZeroIsRead()
    ensures ParseI64("0") == Some(0)
  {
    assert "0"[..0] == "";
  }

  /** Whatever is read has a date of at least three numbers and a time of at least two, with a `T` between. */
  lemma WhatIsReadIsWritten(iso: string) returns (date: string, rest: string)
    requires ParseIso8601(iso).Some?
    ensures 'T' !in date && iso == date + "T" + rest
    ensures StartsWithNumbers(SplitOn(date, '-'), 3) && StartsWithNumbers(SplitOn(TimeOf(rest), ':'), 2)
  {
    date, rest := PartsRead(iso);
    DateIsWritten(date);
    TimeIsWritten(rest);
  }

  lemma PartsRead(iso: string) returns (date: string, rest: string)
    requires ParseIso8601(iso).Some?
    ensures 'T' !in date && iso == date + "T" + rest && ParseDate(date).Some? && ParseTime(rest).Some?
  {
    var t := IndexOf(iso, 'T');
    date, rest := CutAt(iso, t);
    var d, s := ParseDate(date), ParseTime(rest);
    assert ParseIso8601(iso) == SecondsOf(d, s);
  }

  lemma CutAt(iso: string, t: nat) returns (date: string, rest: string)
    requires t == IndexOf(iso, 'T') && t < |iso|
    ensures date == iso[..t] && rest == iso[t + 1..] && 'T' !in date && iso == date + "T" + rest
  {
    date, rest := iso[..t], iso[t + 1..];
  }

  predicate StartsWithNumbers(parts: seq<string>, n: nat) {
    n <= |parts| && forall i :: 0 <= i < n ==> IsNumber(parts[i])
  }

  lemma NumbersAreWritten(s: string)
    ensures ParseI64(s).Some? ==> IsNumber(s)
  {
  }

  lemma DateIsWritten(date: string)
    requires ParseDate(date).Some?
    ensures StartsWithNumbers(SplitOn(date, '-'), 3)
  {
    var parts := SplitOn(date, '-');
    NumbersAreWritten(parts[0]);
    NumbersAreWritten(parts[1]);
    NumbersAreWritten(parts[2]);
  }

  lemma TimeIsWritten(rest: string)
    requires ParseTime(rest).Some?
    ensures StartsWithNumbers(SplitOn(TimeOf(rest), ':'), 2)
  {
    var parts := SplitOn(TimeOf(rest), ':');
    NumbersAreWritten(parts[0]);
    NumbersAreWritten(parts[1]);
  }

  /** The time before its fraction and its zone. */
  function TimeOf(rest: string): (r: string) {
    SplitOn(rest[..ZoneAt(rest)], '.')[0]
  }

  predicate IsNumber(s: string) {
    var digits := if s != "" && (s[0] == '-' || s[0] == '+') then s[1..] else s;
    digits != "" && forall i :: 0 <= i < |digits| ==> '0' <= digits[i] <= '9'
  }

  lemma {:induction false} YearStartGrows(y: int)
    requires y >= 1970
    ensures YearStart(y) >= 365 * (y - 1970)
  {
    if y > 1970 {
      YearStartGrows(y - 1);
    }
  }

  lemma YearsAreDays(d: Date)
    requires d.Valid() && d.year > I64_MAX
    ensures DayNumber(d) * SECONDS_PER_DAY > I64_MAX
  {
    YearStartGrows(d.year);
    MonthStartClosed(d.year, d.month);
  }

  // ----- the main results -----

  /** Printing any 64-bit millisecond count and reading it back gives its whole seconds. */
  lemma PrintedTimestampReadsBack(millis: nat)
    requires millis < U64_MODULUS
    ensures ParseIso8601(UnixMillisToIso8601(millis)) == Some(millis / 1_000)
  {
    var m := MomentOf(millis / 1_000);
    MomentOfIsRight(millis / 1_000);
    MomentIsRead(m, "." + Padded(millis % 1_000, 3) + "Z");
  }

  lemma PrintsItsMoment(seconds: nat, fraction: nat)
    requires fraction < 1_000
    ensures UnixMillisToIso8601(1_000 * seconds + fraction)
         == MomentText(MomentOf(seconds)) + ("." + Padded(fraction, 3) + "Z")
  {
    assert (1_000 * seconds + fraction) / 1_000 == seconds;
    assert (1_000 * seconds + fraction) % 1_000 == fraction;
  }

  /** Printing the seconds read from any calendar moment, with any fraction, gives its date and time back. */
  lemma ReadTimestampPrintsBack(m: Moment, tail: string, seconds: int, fraction: nat)
    requires m.Valid() && fraction < 1_000
    requires tail == [] || tail[0] == 'Z' || tail[0] == '+' || tail[0] == '-' || tail[0] == '.'
    requires ParseIso8601(MomentText(m) + tail) == Some(seconds)
    ensures seconds >= 0
    ensures UnixMillisToIso8601(1_000 * seconds + fraction) == MomentText(m) + ("." + Padded(fraction, 3) + "Z")
  {
    MomentIsRead(m, tail);
    MomentRoundTrip(m);
    PrintsItsMoment(seconds, fraction);
  }

  // ----- text order and time order -----

  /** What follows the date in a printed timestamp. */
  function WithinDay(m: Moment, fraction: nat): (r: string)
    requires m.Valid()
  {
    Padded(m.hour, 2) + (":" + (Padded(m.minute, 2) + (":" + (Padded(m.second, 2)
    + ("." + (Padded(fraction, 3) + "Z"))))))
  }

  /** What follows the year in a printed timestamp. */
  function WithinYear(m: Moment, fraction: nat): (r: string)
    requires m.Valid()
  {
    Padded(m.date.month, 2) + ("-" + (Padded(m.date.day, 2) + ("T" + WithinDay(m, fraction))))
  }

  predicate EarlierInDay(a: Moment, f: nat, b: Moment, g: nat) {
    a.hour < b.hour || (a.hour == b.hour && (
    a.minute < b.minute || (a.minute == b.minute && (
    a.second < b.second || (a.second == b.second && f < g)))))
  }

  predicate EarlierInYear(a: Moment, f: nat, b: Moment, g: nat) {
    a.date.month < b.date.month || (a.date.month == b.date.month && (
    a.date.day < b.date.day || (a.date.day == b.date.day && EarlierInDay(a, f, b, g))))
  }

  lemma FieldOrder(a: nat, b: nat, width: nat, x: string, y: string)
    requires width > 0 && a < Pow10(width) && b < Pow10(width)
    ensures LexLess(Padded(a, width) + x, Padded(b, width) + y) <==> a < b || (a == b && LexLess(x, y))
  {
    PaddedWidth(a, width);
    PaddedWidth(b, width);
    LexAppend(Padded(a, width), Padded(b, width), x, y);
    LexIsNumeric(Padded(a, width), Padded(b, width));
  }

  lemma SeparatorOrder(c: string, x: string, y: string)
    requires |c| == 1
    ensures LexLess(c + x, c + y) <==> LexLess(x, y)
  {
    LexAppend(c, c, x, y);
    LexIsTotal(c, c);
  }

  lemma WithinDayOrder(a: Moment, f: nat, b: Moment, g: nat)
    requires a.Valid() && b.Valid() && f < 1_000 && g < 1_000
    ensures LexLess(WithinDay(a, f), WithinDay(b, g)) <==> EarlierInDay(a, f, b, g)
  {
    var x, y := Padded(f, 3) + "Z", Padded(g, 3) + "Z";
    FieldOrder(f, g, 3, "Z", "Z");
    LexIsTotal("Z", "Z");
    SeparatorOrder(".", x, y);
    x, y := "." + x, "." + y;
    FieldOrder(a.second, b.second, 2, x, y);
    x, y := Padded(a.second, 2) + x, Padded(b.second, 2) + y;
    SeparatorOrder(":", x, y);
    x, y := ":" + x, ":" + y;
    FieldOrder(a.minute, b.minute, 2, x, y);
    x, y := Padded(a.minute, 2) + x, Padded(b.minute, 2) + y;
    SeparatorOrder(":", x, y);
    FieldOrder(a.hour, b.hour, 2, ":" + x, ":" + y);
  }

  lemma WithinYearOrder(a: Moment, f: nat, b: Moment, g: nat)
    requires a.Valid() && b.Valid() && f < 1_000 && g < 1_000
    ensures LexLess(WithinYear(a, f), WithinYear(b, g)) <==> EarlierInYear(a, f, b, g)
  {
    var x, y := WithinDay(a, f), WithinDay(b, g);
    WithinDayOrder(a, f, b, g);
    SeparatorOrder("T", x, y);
    FieldOrder(a.date.day, b.date.day, 2, "T" + x, "T" + y);
    x, y := Padded(a.date.day, 2) + ("T" + x), Padded(b.date.day, 2) + ("T" + y);
    SeparatorOrder("-", x, y);
    FieldOrder(a.date.month, b.date.month, 2, "-" + x, "-" + y);
  }

  lemma PrintedIsYearAndRest(millis: nat)
    ensures UnixMillisToIso8601(millis)
         == Padded(MomentOf(millis / 1_000).date.year, 4) + "-" + WithinYear(MomentOf(millis / 1_000), millis % 1_000)
  {
    var m, fraction := MomentOf(millis / 1_000), millis % 1_000;
    JoinedText(Padded(m.date.year, 4), Padded(m.date.month, 2), Padded(m.date.day, 2),
               Padded(m.hour, 2), Padded(m.minute, 2), Padded(m.second, 2), Padded(fraction, 3));
  }

  lemma JoinedText(y: string, mo: string, d: string, h: string, mi: string, s: string, f: string)
    ensures y + "-" + (mo + "-" + d) + "T" + (h + ":" + (mi + ":" + s)) + ("." + f + "Z")
         == y + "-" + (mo + ("-" + (d + ("T" + (h + (":" + (mi + (":" + (s + ("." + (f + "Z")))))))))))
  {
  }

  lemma SameYearOrder(a: Moment, f: nat, b: Moment, g: nat)
    requires a.Valid() && b.Valid() && f < 1_000 && g < 1_000 && a.date.year == b.date.year
    ensures EarlierInYear(a, f, b, g) <==> 1_000 * a.Seconds() + f < 1_000 * b.Seconds() + g
  {
    if Before(a.date, b.date) {
      DatesAreOrdered(a.date, b.date);
    } else if Before(b.date, a.date) {
      DatesAreOrdered(b.date, a.date);
    }
  }

  // ----- years as texts -----

  lemma {:induction false} LeadingDigits(s: string, k: nat)
    requires AllDigits(s) && k <= |s|
    ensures DigitsValue(s[..k]) == DigitsValue(s) / Pow10(|s| - k)
  {
    if k == |s| {
      assert s[..k] == s;
    } else {
      var n := |s| - 1;
      LeadingDigits(s[..n], k);
      assert s[..n][..k] == s[..k];
      TenTimes(DigitsValue(s[..n]), DigitValue(s[n]), Pow10(n - k));
    }
  }

  lemma TenTimes(n: nat, d: nat, p: nat)
    requires d < 10 && p > 0
    ensures (10 * n + d) / (10 * p) == n / p
  {
    var q, r := n / p, n % p;
    assert 10 * n + d == 10 * p * q + (10 * r + d);
    assert 10 * r + d < 10 * p;
    QuotientIs(10 * n + d, 10 * p, q, 10 * r + d);
  }

  lemma {:induction false} MultipleIsFar(m: int, d: int)
    requires m >= 0 && d != 0
    ensures if d > 0 then m * d >= m else m * d <= -m
    decreases if d > 0 then d else -d
  {
    if d > 1 {
      MultipleIsFar(m, d - 1);
      assert m * d == m * (d - 1) + m;
    } else if d < -1 {
      MultipleIsFar(m, d + 1);
      assert m * d == m * (d + 1) - m;
    }
  }

  lemma QuotientIs(n: nat, m: nat, q: nat, r: nat)
    requires n == m * q + r && r < m
    ensures n / m == q
  {
    var d := n / m - q;
    assert m * d == r - n % m;
    if d != 0 {
      MultipleIsFar(m, d);
      assert false;
    }
  }

  /** How many characters a printed year takes. */
  function YearWidth(y: nat): (w: nat)
    ensures w >= 4
  {
    if y < 10_000 then 4 else 1 + YearWidth(y / 10)
  }

  lemma {:induction false} WideDecimal(y: nat)
    requires y >= 1_000
    ensures |Decimal(y)| == YearWidth(y)
  {
    if y >= 10_000 {
      WideDecimal(y / 10);
    } else {
      DecimalWidth(y, 4);
      assert |Decimal(y)| == 1 + |Decimal(y / 10)| && |Decimal(y / 10)| == 1 + |Decimal(y / 10 / 10)|;
      assert |Decimal(y / 10 / 10)| == 1 + |Decimal(y / 10 / 10 / 10)|;
    }
  }

  lemma YearWidthIs(y: nat)
    ensures |Padded(y, 4)| == YearWidth(y)
  {
    if y < 10_000 {
      PaddedWidth(y, 4);
    } else {
      WideDecimal(y);
    }
  }

  /** The order of printed numbers: the one with fewer digits against the leading digits of the other, first if
      equal. */
  predicate SortsBefore(y: nat, v: nat, z: nat, w: nat) {
    if v < w then y <= z / Pow10(w - v) else y / Pow10(v - w) < z
  }

  predicate YearSortsBefore(y: nat, z: nat) {
    SortsBefore(y, YearWidth(y), z, YearWidth(z))
  }

  lemma ShorterNumberOrder(a: string, b: string)
    requires AllDigits(a) && AllDigits(b) && |a| < |b|
    ensures LexLess(a, b) <==> DigitsValue(a) <= DigitsValue(b) / Pow10(|b| - |a|)
  {
    var lead, rest := b[..|a|], b[|a|..];
    LeadingDigits(b, |a|);
    LexAppend(a, lead, "", rest);
    LexIsNumeric(a, lead);
    assert a + "" == a && lead + rest == b;
  }

  lemma LongerNumberOrder(a: string, b: string)
    requires AllDigits(a) && AllDigits(b) && |a| > |b|
    ensures LexLess(a, b) <==> DigitsValue(a) / Pow10(|a| - |b|) < DigitsValue(b)
  {
    var lead, rest := a[..|b|], a[|b|..];
    LeadingDigits(a, |b|);
    LexAppend(lead, b, rest, "");
    LexIsNumeric(lead, b);
    assert b + "" == b && lead + rest == a;
  }

  lemma NumberTextOrder(a: string, b: string)
    requires AllDigits(a) && AllDigits(b)
    ensures LexLess(a, b) <==> SortsBefore(DigitsValue(a), |a|, DigitsValue(b), |b|)
  {
    if |a| < |b| {
      ShorterNumberOrder(a, b);
    } else if |a| > |b| {
      LongerNumberOrder(a, b);
    } else {
      LexIsNumeric(a, b);
      assert Pow10(|a| - |b|) == 1;
    }
  }

  lemma PrintedYearOrder(y: nat, z: nat)
    ensures LexLess(Padded(y, 4), Padded(z, 4)) <==> YearSortsBefore(y, z)
  {
    YearWidthIs(y);
    YearWidthIs(z);
    NumberTextOrder(Padded(y, 4), Padded(z, 4));
  }

  /** Printed timestamps compare as texts the way their instants compare in time, within one year; across years
      they compare the way the years are printed. */
  lemma PrintedOrder(p: nat, q: nat)
    ensures var y, z := MomentOf(p / 1_000).date.year, MomentOf(q / 1_000).date.year;
            LexLess(UnixMillisToIso8601(p), UnixMillisToIso8601(q)) <==> if y == z then p < q else YearSortsBefore(y, z)
  {
    var a, b := MomentOf(p / 1_000), MomentOf(q / 1_000);
    var f, g := p % 1_000, q % 1_000;
    PrintedIsYearAndRest(p);
    PrintedIsYearAndRest(q);
    var y, z := Padded(a.date.year, 4), Padded(b.date.year, 4);
    if a.date.year == b.date.year {
      LexAppend(y + "-", z + "-", WithinYear(a, f), WithinYear(b, g));
      LexIsTotal(y + "-", z + "-");
      WithinYearOrder(a, f, b, g);
      SameYearOrder(a, f, b, g);
      MomentOfIsRight(p / 1_000);
      MomentOfIsRight(q / 1_000);
    } else {
      LexBeforeDash(y, z, WithinYear(a, f), WithinYear(b, g));
      PrintedYearOrder(a.date.year, b.date.year);
    }
  }

  /** Midnight on the first of January of year 10000. */
  const FIVE_DIGIT_YEARS: nat := 253_402_300_800_000

  lemma YearTenThousand()
    ensures DayNumber(Date(10_000, 1, 1)) * SECONDS_PER_DAY * 1_000 == FIVE_DIGIT_YEARS
  {
    YearStartClosed(10_000);
  }

  lemma YearsGrow(p: nat, q: nat)
    requires p <= q
    ensures MomentOf(p / 1_000).date.year <= MomentOf(q / 1_000).date.year
  {
    var a, b := MomentOf(p / 1_000), MomentOf(q / 1_000);
    MomentOfIsRight(p / 1_000);
    MomentOfIsRight(q / 1_000);
    if b.date.year < a.date.year {
      DatesAreOrdered(b.date, a.date);
    }
  }

  lemma FourDigitYears(p: nat)
    ensures p < FIVE_DIGIT_YEARS <==> MomentOf(p / 1_000).date.year < 10_000
  {
    var m, newYear := MomentOf(p / 1_000), Date(10_000, 1, 1);
    MomentOfIsRight(p / 1_000);
    YearTenThousand();
    if m.date.year >= 10_000 && m.date != newYear {
      DatesAreOrdered(newYear, m.date);
    } else if m.date.year < 10_000 {
      DatesAreOrdered(m.date, newYear);
    }
  }

  lemma YearTextOrder(y: nat, z: nat)
    requires y < 10_000 && z < 10_000
    ensures YearSortsBefore(y, z) <==> y < z
  {
  }

  /** Before year 10000, comparing printed timestamps as texts is comparing instants. */
  lemma TextOrderIsTimeOrder(p: nat, q: nat)
    requires p < FIVE_DIGIT_YEARS && q < FIVE_DIGIT_YEARS
    ensures LexLess(UnixMillisToIso8601(p), UnixMillisToIso8601(q)) <==> p < q
  {
    var y, z := MomentOf(p / 1_000).date.year, MomentOf(q / 1_000).date.year;
    FourDigitYears(p);
    FourDigitYears(q);
    if p <= q { YearsGrow(p, q); } else { YearsGrow(q, p); }
    YearTextOrder(y, z);
    PrintedOrder(p, q);
  }

  /** Every instant of year 10000 sorts before every instant of year 9999. */
  lemma YearTenThousandSortsEarlier(p: nat, q: nat)
    requires MomentOf(p / 1_000).date.year == 10_000 && MomentOf(q / 1_000).date.year == 9_999
    ensures q < p && LexLess(UnixMillisToIso8601(p), UnixMillisToIso8601(q))
  {
    if p <= q {
      YearsGrow(p, q);
    }
    assert YearWidth(10_000) == 5 && Pow10(1) == 10;
    PrintedOrder(p, q);
  }
}
