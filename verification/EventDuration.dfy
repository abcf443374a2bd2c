/**
  The length of an event, models/event.go: the two DurationInDays methods have the same body,
  which steps a day at a time until the days of the month agree. Dates are proleptic Gregorian
  and in UTC, so adding 24 hours is going to the next date.
*/
module EventDuration {
  import opened Wrappers

  datatype Date = Date(year: int, month: nat, day: nat)

  /** A UTC instant: its date and the nanoseconds since that midnight. */
  datatype Moment = Moment(date: Date, nanos: nat)

  // ---- the calendar ----

  predicate Leap(year: int) {
    year % 4 == 0 && (year % 100 != 0 || year % 400 == 0)
  }

  function DaysIn(year: int, month: nat): (n: nat)
    requires 1 <= month <= 12
    ensures 28 <= n <= 31
  {
    if month == 2 then (if Leap(year) then 29 else 28)
    else if month in {4, 6, 9, 11} then 30
    else 31
  }

  predicate ValidDate(d: Date) {
    1 <= d.month <= 12 && 1 <= d.day <= DaysIn(d.year, d.month)
  }

  /** The first of the following month. */
  function NextMonth(d: Date): (n: Date)
    requires ValidDate(d)
    ensures ValidDate(n)
  {
    if d.month == 12 then Date(d.year + 1, 1, 1) else Date(d.year, d.month + 1, 1)
  }

  /** The last of the month before. */
  function PreviousMonth(d: Date): (p: Date)
    requires ValidDate(d)
    ensures ValidDate(p) && p.day == DaysIn(p.year, p.month)
  {
    if d.month == 1 then Date(d.year - 1, 12, 31) else Date(d.year, d.month - 1, DaysIn(d.year, d.month - 1))
  }

  function Length(d: Date): nat
    requires ValidDate(d)
  {
    DaysIn(d.year, d.month)
  }

  function Next(d: Date): (n: Date)
    requires ValidDate(d)
    ensures ValidDate(n)
  {
    if d.day < Length(d) then d.(day := d.day + 1) else NextMonth(d)
  }

  function Prev(d: Date): (p: Date)
    requires ValidDate(d)
    ensures ValidDate(p) && Next(p) == d
  {
    if d.day > 1 then d.(day := d.day - 1) else PreviousMonth(d)
  }

  /** Days before the first of March of a year: leap days are the fourth years but three in four hundred. */
  function YearStart(year: int): int {
    365 * year + year / 4 - year / 100 + year / 400
  }

  /** Days from the first of March to that of the month: 153 for each five months. */
  function MonthStart(month: nat): nat
    requires 1 <= month <= 12
  {
    var sinceMarch := if month <= 2 then month + 9 else month - 3;
    (153 * sinceMarch + 2) / 5
  }

  /** The number of a day, from the usual formula that counts years from March on. */
  function DayNumber(d: Date): int
    requires ValidDate(d)
  {
    YearStart(if d.month <= 2 then d.year - 1 else d.year) + MonthStart(d.month) + d.day
  }

  /** The next date is the next day, whatever the month and the year. */
  lemma NextIsTheNextDay(d: Date)
    requires ValidDate(d)
    ensures DayNumber(Next(d)) == DayNumber(d) + 1
  {
    if d.day == Length(d) && d.month == 2 {
      FebruaryEnds(d.year);
    } else if d.day == Length(d) {
      MonthEnds(d.year, d.month);
    }
  }

  lemma MonthEnds(year: int, month: nat)
    requires 1 <= month <= 12 && month != 2
    ensures MonthStart(if month == 12 then 1 else month + 1) == MonthStart(month) + DaysIn(year, month)
  {
    assert MonthStart(1) == 306 && MonthStart(2) == 337 && MonthStart(3) == 0 && MonthStart(4) == 31;
    assert MonthStart(5) == 61 && MonthStart(6) == 92 && MonthStart(7) == 122 && MonthStart(8) == 153;
    assert MonthStart(9) == 184 && MonthStart(10) == 214 && MonthStart(11) == 245 && MonthStart(12) == 275;
  }

  lemma FebruaryEnds(year: int)
    ensures YearStart(year) == YearStart(year - 1) + if Leap(year) then 366 else 365
  {
    DivStep(year, 4);
    DivStep(year, 100);
    DivStep(year, 400);
    CenturiesAreFourths(year);
  }

  lemma CenturiesAreFourths(year: int)
    ensures year % 100 == 0 ==> year % 4 == 0
    ensures year % 400 == 0 ==> year % 100 == 0
  {
    if year % 400 == 0 {
      assert year == 100 * (4 * (year / 400));
    }
    if year % 100 == 0 {
      assert year == 4 * (25 * (year / 100));
    }
  }

  lemma DivStep(y: int, k: int)
    requires k in {4, 100, 400}
    ensures y / k == (y - 1) / k + if y % k == 0 then 1 else 0
  {
  }

  /** Going n days ahead adds n to the number of the day. */
  lemma {:induction false} AddDaysCounts(d: Date, n: nat)
    requires ValidDate(d)
    ensures DayNumber(AddDays(d, n)) == DayNumber(d) + n
  {
    if n == 0 {
    } else {
      AddDaysCounts(d, n - 1);
      NextIsTheNextDay(AddDays(d, n - 1));
    }
  }

  function AddDays(d: Date, n: nat): (r: Date)
    requires ValidDate(d)
    ensures ValidDate(r)
  {
    if n == 0 then d else Next(AddDays(d, n - 1))
  }

  function SubDays(d: Date, n: nat): (r: Date)
    requires ValidDate(d)
    ensures ValidDate(r)
  {
    if n == 0 then d else Prev(SubDays(d, n - 1))
  }

  lemma {:induction false} NextFirst(d: Date, n: nat)
    requires ValidDate(d)
    ensures AddDays(Next(d), n) == AddDays(d, n + 1)
  {
    if n == 0 {
    } else {
      NextFirst(d, n - 1);
    }
  }

  lemma {:induction false} SubUndoesAdd(d: Date, n: nat, j: nat)
    requires ValidDate(d) && j <= n
    ensures SubDays(AddDays(d, n), j) == AddDays(d, n - j)
  {
    if j == 0 {
    } else {
      SubUndoesAdd(d, n, j - 1);
    }
  }

  // ---- how far the loop goes ----

  /** Days from `d` to the first date whose day of the month is `target`: in this month, in the
      next one, or, when that is too short, in the one after. */
  function Gap(d: Date, target: nat): (n: nat)
    requires ValidDate(d) && 1 <= target <= 31
    ensures n <= 60 && (n == 0 <==> d.day == target)
  {
    var rest := Length(d) - d.day;
    var second := NextMonth(d);
    if d.day <= target <= Length(d) then target - d.day
    else if target <= Length(second) then rest + target
    else rest + Length(second) + target
  }

  lemma GapStep(d: Date, target: nat)
    requires ValidDate(d) && 1 <= target <= 31 && d.day != target
    ensures Gap(d, target) == 1 + Gap(Next(d), target)
  {
  }

  /** The gap is the number of days to the first date with the wanted day of the month. */
  lemma {:induction false} GapIsFirst(d: Date, target: nat)
    requires ValidDate(d) && 1 <= target <= 31
    ensures AddDays(d, Gap(d, target)).day == target
    ensures forall k :: 0 <= k < Gap(d, target) ==> AddDays(d, k).day != target
    decreases Gap(d, target)
  {
    if d.day != target {
      GapStep(d, target);
      GapIsFirst(Next(d), target);
      NextFirst(d, Gap(Next(d), target));
      forall k | 0 <= k < Gap(d, target)
        ensures AddDays(d, k).day != target
      {
        if k > 0 {
          NextFirst(d, k - 1);
        }
      }
    }
  }

  /** Days from the last earlier date with the same day of the month: the length of the month
      before, and of the one before that when the month before has no such day. */
  function BackGap(d: Date): (n: nat)
    requires ValidDate(d)
    ensures 28 <= n <= 62
  {
    var p1 := PreviousMonth(d);
    var p2 := PreviousMonth(p1);
    if d.day <= p1.day then p1.day else p1.day + p2.day
  }

  /** Where j days before `d` lies, for up to two months back. */
  lemma {:induction false} SubDaysClosed(d: Date, j: nat)
    requires ValidDate(d)
    requires j < d.day + PreviousMonth(d).day + PreviousMonth(PreviousMonth(d)).day
    ensures var p1 := PreviousMonth(d); var p2 := PreviousMonth(p1);
            SubDays(d, j) ==
            if j < d.day then d.(day := d.day - j)
            else if j < d.day + p1.day then p1.(day := p1.day - (j - d.day))
            else p2.(day := p2.day - (j - d.day - p1.day))
  {
    if j == 0 {
    } else {
      SubDaysClosed(d, j - 1);
    }
  }

  /** No date strictly between `d` and the one BackGap(d) days earlier shares its day of the month. */
  lemma BackGapIsFirst(d: Date, j: nat)
    requires ValidDate(d) && 1 <= j <= BackGap(d)
    ensures SubDays(d, j).day == d.day <==> j == BackGap(d)
  {
    SubDaysClosed(d, j);
  }

  /** When the end is n days after the begin, the loop counts those n days exactly when the begin
      is less than BackGap(end) days back. */
  lemma GapIsDistanceIff(begin: Date, n: nat)
    requires ValidDate(begin)
    ensures var end := AddDays(begin, n);
            Gap(begin, end.day) == n <==> n < BackGap(end)
  {
    var end := AddDays(begin, n);
    GapIsFirst(begin, end.day);
    if n < BackGap(end) {
      NearIsDistance(begin, n);
    } else {
      FarIsShorter(begin, n);
    }
  }

  lemma NearIsDistance(begin: Date, n: nat)
    requires ValidDate(begin) && n < BackGap(AddDays(begin, n))
    ensures Gap(begin, AddDays(begin, n).day) == n
  {
    var end := AddDays(begin, n);
    var g := Gap(begin, end.day);
    GapIsFirst(begin, end.day);
    if g < n {
      SameDayAt(begin, n, g);
      BackGapIsFirst(end, n - g);
    }
  }

  lemma FarIsShorter(begin: Date, n: nat)
    requires ValidDate(begin) && n >= BackGap(AddDays(begin, n))
    ensures Gap(begin, AddDays(begin, n).day) < n
  {
    var end := AddDays(begin, n);
    var back := BackGap(end);
    SubUndoesAdd(begin, n, back);
    BackGapIsFirst(end, back);
    GapIsFirst(begin, end.day);
  }

  lemma SameDayAt(begin: Date, n: nat, g: nat)
    requires ValidDate(begin) && g < n
    ensures SubDays(AddDays(begin, n), n - g) == AddDays(begin, g)
  {
    SubUndoesAdd(begin, n, n - g);
  }

  // ---- DurationInDays ----

  ghost predicate ValidMoment(m: Option<Moment>) {
    m.Some? ==> ValidDate(m.value.date)
  }

  function Add24Hours(m: Moment): Moment
    requires ValidDate(m.date)
  {
    m.(date := Next(m.date))
  }

  method DurationInDays(begin: Option<Moment>, end: Option<Moment>) returns (days: int, ok: bool)
    requires ValidMoment(begin) && ValidMoment(end)
    ensures ok <==> begin.Some? && end.Some?
    ensures ok ==> days == Gap(begin.value.date, end.value.date.day) + 1
    ensures !ok ==> days == -1
  {
    var result := 1;
    if begin.None? || end.None? {
      return -1, false;
    }
    var start := begin.value;
    var day := end.value.date.day;
    while start.date.day != day
      invariant ValidDate(start.date)
      invariant result + Gap(start.date, day) == Gap(begin.value.date, day) + 1
      decreases Gap(start.date, day)
    {
      GapStep(start.date, day);
      result := result + 1;
      start := Add24Hours(start);
    }
    return result, true;
  }

  /** The answer counts both end days of an event of at most 28 days. */
  lemma DurationOfShortEvents(begin: Date, n: nat)
    requires ValidDate(begin) && n <= 27
    ensures Gap(begin, AddDays(begin, n).day) + 1 == n + 1
  {
    GapIsDistanceIff(begin, n);
  }

  /** Any 28 consecutive days have distinct days of the month. */
  lemma TwentyEightDistinctDays(begin: Date, i: nat, j: nat)
    requires ValidDate(begin) && i < j < 28
    ensures AddDays(begin, i).day != AddDays(begin, j).day
  {
    GapIsDistanceIff(begin, j);
    GapIsFirst(begin, AddDays(begin, j).day);
  }

  lemma {:induction false} AddBack(d: Date, n: nat)
    requires ValidDate(d)
    ensures AddDays(SubDays(d, n), n) == d
  {
    if n == 0 {
    } else {
      AddBack(d, n - 1);
      NextFirst(SubDays(d, n), n - 1);
    }
  }

  /** The bound of 28 is sharp: four weeks across the end of a common February count as one day. */
  lemma FourWeeksOverFebruary(year: int, day: nat)
    requires !Leap(year) && 1 <= day <= 28
    ensures AddDays(Date(year, 2, day), 28) == Date(year, 3, day)
    ensures Gap(Date(year, 2, day), AddDays(Date(year, 2, day), 28).day) + 1 == 1
  {
    SubDaysClosed(Date(year, 3, day), 28);
    AddBack(Date(year, 3, day), 28);
  }
}
