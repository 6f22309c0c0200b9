/** The proleptic Gregorian calendar and the part of Go's `time` package the schedulers use.

    An `Instant` counts nanoseconds from Go's zero time, 0001-01-01T00:00:00Z, without bound.
    A zone is a fixed offset in nanoseconds. Months are numbered consecutively, month 0 being
    January of year 0, so that carrying excess months into years, as `time.Date` does, is plain
    addition. Excess days run into the following months. */
module Calendar {
  const NANOS_PER_SECOND := 1_000_000_000
  const NANOS_PER_MINUTE := 60_000_000_000
  const NANOS_PER_DAY := 86_400_000_000_000

  type Instant = int

  datatype Date = Date(month: int, day: int)

  predicate IsLeap(year: int) {
    year % 4 == 0 && (year % 100 != 0 || year % 400 == 0)
  }

  function MonthLength(month: int): (n: int)
    ensures 28 <= n <= 31
  {
    var m := month % 12 + 1;
    if m == 2 then (if IsLeap(month / 12) then 29 else 28)
    else if m == 4 || m == 6 || m == 9 || m == 11 then 30
    else 31
  }

  const JANUARY_OF_YEAR_1 := 12

  /** Day number of the first day of a month, counting whole months from 0001-01-01, which is day 0. */
  function FirstDay(month: int): int
    decreases if month >= JANUARY_OF_YEAR_1 then month - JANUARY_OF_YEAR_1 else JANUARY_OF_YEAR_1 - month
  {
    if month == JANUARY_OF_YEAR_1 then 0
    else if month > JANUARY_OF_YEAR_1 then FirstDay(month - 1) + MonthLength(month - 1)
    else FirstDay(month + 1) - MonthLength(month)
  }

  predicate ValidDate(d: Date) {
    1 <= d.day <= MonthLength(d.month)
  }

  function DayNumber(d: Date): int {
    FirstDay(d.month) + d.day - 1
  }

  lemma FirstDayStep(month: int)
    ensures FirstDay(month + 1) == FirstDay(month) + MonthLength(month)
  {
  }

  /** The twelve months of a year add up to 365 days, or 366 in a leap year. */
  lemma YearLength(year: int)
    ensures FirstDay(12 * (year + 1)) == FirstDay(12 * year) + (if IsLeap(year) then 366 else 365)
  {
    hide FirstDay;
    for k := 0 to 12
      invariant FirstDay(12 * year + k) == FirstDay(12 * year)
        + [0, 31, 59, 90, 120, 151, 181, 212, 243, 273, 304, 334, 365][k]
        + (if k >= 2 && IsLeap(year) then 1 else 0)
    {
      FirstDayStep(12 * year + k);
      assert (12 * year + k) % 12 == k && (12 * year + k) / 12 == year;
    }
  }

  /** Counting months agrees with the leap year rule: every fourth year, except full
      centuries that are not multiples of 400. */
  lemma {:induction false} YearStart(year: int)
    ensures FirstDay(12 * year) == 365 * (year - 1) + (year - 1) / 4 - (year - 1) / 100 + (year - 1) / 400
    decreases if year >= 1 then year - 1 else 1 - year
  {
    hide FirstDay;
    if year == 1 {
      FirstDayOrigin();
    } else if year > 1 {
      YearStart(year - 1);
      YearLength(year - 1);
      LeapCount(year - 1);
    } else {
      YearStart(year + 1);
      YearLength(year);
      LeapCount(year);
    }
  }

  /** The first day of every month in closed form, counting months from March so that the leap day comes last. */
  lemma {:induction false} MonthStart(year: int, k: nat)
    requires k <= 11
    ensures FirstDay(12 * year + 2 + k)
         == 365 * year + year / 4 - year / 100 + year / 400 - 306 + (153 * k + 2) / 5
  {
    hide FirstDay;
    var month := 12 * year + 2 + k;
    if k == 0 {
      YearStart(year);
      LeapCount(year);
      FirstDayStep(12 * year);
      FirstDayStep(12 * year + 1);
      MonthInYear(year, 0);
      MonthInYear(year, 1);
    } else {
      MonthStart(year, k - 1);
      FirstDayStep(month - 1);
      MonthInYear(if k == 11 then year + 1 else year, if k == 11 then 0 else k + 1);
    }
  }

  lemma MonthInYear(year: int, m: nat)
    requires m < 12
    ensures (12 * year + m) % 12 == m && (12 * year + m) / 12 == year
  {
  }

  lemma LeapCount(year: int)
    ensures year / 4 - year / 100 + year / 400
         == (year - 1) / 4 - (year - 1) / 100 + (year - 1) / 400 + (if IsLeap(year) then 1 else 0)
  {
    Multiples(year, 4);
    Multiples(year, 100);
    Multiples(year, 400);
    Divides(year, 100, 4, 25);
    Divides(year, 400, 100, 4);
  }

  lemma Multiples(n: int, k: int)
    requires k > 1
    ensures n / k == (n - 1) / k + (if n % k == 0 then 1 else 0)
  {
    var q, r := n / k, n % k;
    assert n == q * k + r;
    if r == 0 {
      assert n - 1 == (q - 1) * k + (k - 1);
      QuotientUnique(n - 1, k, q - 1, k - 1);
    } else {
      QuotientUnique(n - 1, k, q, r - 1);
    }
  }

  lemma Divides(n: int, big: int, small: int, factor: int)
    requires small > 0 && factor > 0 && big == small * factor
    ensures n % big == 0 ==> n % small == 0
  {
    if n % big == 0 {
      var q := n / big;
      assert n == q * big;
      assert n == (q * factor) * small;
      QuotientUnique(n, small, q * factor, 0);
    }
  }

  lemma QuotientUnique(n: int, k: int, q: int, r: int)
    requires k > 0 && 0 <= r < k && n == q * k + r
    ensures n / k == q && n % k == r
  {
    var d := n / k - q;
    assert d * k == r - n % k;
    assert d == 0 by {
      if d > 0 { MulAtLeast(d, k); }
      if d < 0 { MulAtLeast(-d, k); }
    }
  }

  lemma MulAtLeast(d: int, k: int)
    requires d >= 1 && k >= 0
    ensures d * k >= k
  {
    assert (d - 1) * k >= 0;
  }

  lemma FirstDayOrigin()
    ensures FirstDay(12) == 0
  {
  }

  /** A span of n months holds between 28n and 31n days. */
  lemma {:induction false} MonthSpan(month: int, n: nat)
    ensures 28 * n <= FirstDay(month + n) - FirstDay(month) <= 31 * n
    decreases n
  {
    hide FirstDay, MonthLength;
    if n > 0 {
      MonthSpan(month, n - 1);
      FirstDayStep(month + n - 1);
    }
  }

  // The month that holds day number n, found by walking from a guess.
  function MonthFrom(n: int, guess: int): (month: int)
    ensures FirstDay(month) <= n < FirstDay(month) + MonthLength(month)
    decreases if n < FirstDay(guess) then FirstDay(guess) - n
              else if n < FirstDay(guess) + MonthLength(guess) then 0
              else n - FirstDay(guess) - MonthLength(guess) + 1
  {
    FirstDayStep(guess - 1);
    FirstDayStep(guess);
    if n < FirstDay(guess) then MonthFrom(n, guess - 1)
    else if n < FirstDay(guess) + MonthLength(guess) then guess
    else MonthFrom(n, guess + 1)
  }

  function MonthOf(n: int): (month: int)
    ensures FirstDay(month) <= n < FirstDay(month) + MonthLength(month)
  {
    MonthFrom(n, 0)
  }

  lemma MonthOfUnique(n: int, month: int)
    requires FirstDay(month) <= n < FirstDay(month) + MonthLength(month)
    ensures MonthOf(n) == month
  {
    hide FirstDay, MonthLength, MonthOf;
    var found := MonthOf(n);
    FirstDayStep(month);
    FirstDayStep(found);
    if found < month {
      MonthSpan(found + 1, month - found - 1);
    } else if month < found {
      MonthSpan(month + 1, found - month - 1);
    }
  }

  /** The date of a day number, as `Time.Date` reports it. */
  function DateOf(n: int): (d: Date)
    ensures ValidDate(d) && DayNumber(d) == n
  {
    var month := MonthOf(n);
    Date(month, n - FirstDay(month) + 1)
  }

  /** Every valid date is the date of its own day number, so `DateOf` is a bijection. */
  lemma DateRoundTrip(d: Date)
    requires ValidDate(d)
    ensures DateOf(DayNumber(d)) == d
  {
    MonthOfUnique(DayNumber(d), d.month);
  }

  // Local day number and time of day of an instant.
  function LocalDay(t: Instant, offset: int): int {
    (t + offset) / NANOS_PER_DAY
  }

  function TimeOfDay(t: Instant, offset: int): (n: int)
    ensures 0 <= n < NANOS_PER_DAY
  {
    (t + offset) % NANOS_PER_DAY
  }

  function LocalDate(t: Instant, offset: int): Date {
    DateOf(LocalDay(t, offset))
  }

  function AtDay(day: int, timeOfDay: int, offset: int): Instant {
    day * NANOS_PER_DAY + timeOfDay - offset
  }

  /** `time.Date` for a day that may be out of range for its month. */
  function GoDate(month: int, day: int, timeOfDay: int, offset: int): Instant {
    AtDay(FirstDay(month) + day - 1, timeOfDay, offset)
  }

  /** `Time.AddDate` in the fixed zone of the receiver. */
  function AddDate(t: Instant, offset: int, years: int, months: int, days: int): Instant {
    var d := LocalDate(t, offset);
    GoDate(d.month + 12 * years + months, d.day + days, TimeOfDay(t, offset), offset)
  }

  lemma AtDayParts(day: int, timeOfDay: int, offset: int)
    requires 0 <= timeOfDay < NANOS_PER_DAY
    ensures LocalDay(AtDay(day, timeOfDay, offset), offset) == day
    ensures TimeOfDay(AtDay(day, timeOfDay, offset), offset) == timeOfDay
  {
    QuotientUnique(day * NANOS_PER_DAY + timeOfDay, NANOS_PER_DAY, day, timeOfDay);
  }

  /** An instant is its local day and time of day put together. */
  lemma Parts(t: Instant, offset: int)
    ensures t == AtDay(LocalDay(t, offset), TimeOfDay(t, offset), offset)
  {
  }

  lemma DayDifference(a: int, b: int, timeOfDay: int, offset: int)
    ensures AtDay(a, timeOfDay, offset) - AtDay(b, timeOfDay, offset) == (a - b) * NANOS_PER_DAY
  {
  }

  /** Adding days moves the clock by whole days; adding months moves it by the days in those months. */
  lemma AddDateShift(t: Instant, offset: int, years: int, months: int, days: int)
    ensures var month := MonthOf(LocalDay(t, offset));
            AddDate(t, offset, years, months, days) ==
            t + (FirstDay(month + 12 * years + months) - FirstDay(month) + days) * NANOS_PER_DAY
  {
    hide FirstDay, MonthLength, MonthOf, LocalDay, TimeOfDay, AtDay;
    var d := LocalDate(t, offset);
    var target := d.month + 12 * years + months;
    Parts(t, offset);
    DayDifference(FirstDay(target) + d.day + days - 1, LocalDay(t, offset), TimeOfDay(t, offset), offset);
  }

  /** Where `AddDate` lands: in the target month if the day exists there, and otherwise
      in the first three days of the month after it. */
  lemma AddMonthsLanding(t: Instant, offset: int, months: int)
    ensures var month := MonthOf(LocalDay(t, offset));
            var d := LocalDate(t, offset).day;
            var length := MonthLength(month + months);
            var r := AddDate(t, offset, 0, months, 0);
            && TimeOfDay(r, offset) == TimeOfDay(t, offset)
            && (d <= length ==> MonthOf(LocalDay(r, offset)) == month + months && LocalDate(r, offset).day == d)
            && (d > length ==>
                  && MonthOf(LocalDay(r, offset)) == month + months + 1
                  && LocalDate(r, offset).day == d - length
                  && 1 <= d - length <= 3)
  {
    hide FirstDay, MonthLength, MonthOf, LocalDay, TimeOfDay;
    var month := MonthOf(LocalDay(t, offset));
    var d := LocalDate(t, offset).day;
    var target := month + months;
    var day := FirstDay(target) + d - 1;
    AtDayParts(day, TimeOfDay(t, offset), offset);
    FirstDayStep(target);
    if d <= MonthLength(target) {
      MonthOfUnique(day, target);
    } else {
      MonthOfUnique(day, target + 1);
    }
  }
}
