/** Recurring schedules of maintenance activities: the start date, advanced by a step of
    days, weeks, months, quarters or years. */
module Recurrence {
  import opened Calendar
  import opened Outcomes

  datatype RecurrenceUnit = Day | Week | Month | Quarter | Year | Unsupported(name: string)

  datatype ScheduleError = StartDateRequired | IntervalRequired | InvalidRecurrenceUnit

  /** `offset` is the fixed zone the start date carries. */
  datatype Schedule = Schedule(start: Instant, offset: int, every: int, unit: RecurrenceUnit)

  function Validate(s: Schedule): Option<ScheduleError> {
    if s.start == 0 then Some(StartDateRequired)
    else if s.every <= 0 then Some(IntervalRequired)
    else if s.unit.Unsupported? then Some(InvalidRecurrenceUnit)
    else None
  }

  predicate Valid(s: Schedule) {
    Validate(s).None?
  }

  // What one step adds, in the three units `AddDate` takes.
  datatype Step = Step(years: int, months: int, days: int)

  function StepOf(s: Schedule): Step {
    match s.unit
    case Day => Step(0, 0, s.every)
    case Week => Step(0, 0, s.every * 7)
    case Month => Step(0, s.every, 0)
    case Quarter => Step(0, s.every * 3, 0)
    case Year => Step(s.every, 0, 0)
    case Unsupported(_) => Step(0, 0, 0)
  }

  function Advance(s: Schedule, current: Instant): Instant {
    if s.unit.Unsupported? then current
    else AddDate(current, s.offset, StepOf(s).years, StepOf(s).months, StepOf(s).days)
  }

  // The k-th member of start, advance(start), advance(advance(start)), ...
  function Occurrence(s: Schedule, k: nat): Instant {
    if k == 0 then s.start else Advance(s, Occurrence(s, k - 1))
  }

  ghost predicate IsOccurrence(s: Schedule, t: Instant) {
    exists k: nat :: Occurrence(s, k) == t
  }

  predicate MonthBased(s: Schedule) {
    s.unit.Month? || s.unit.Quarter? || s.unit.Year?
  }

  function MonthStep(s: Schedule): int {
    match s.unit
    case Month => s.every
    case Quarter => 3 * s.every
    case Year => 12 * s.every
    case _ => 0
  }

  function DayStep(s: Schedule): int {
    match s.unit
    case Day => s.every
    case Week => 7 * s.every
    case _ => 0
  }

  // The shortest and the longest time one step can take.
  function LeastGain(s: Schedule): int {
    (28 * MonthStep(s) + DayStep(s)) * NANOS_PER_DAY
  }

  function MostGain(s: Schedule): int {
    (31 * MonthStep(s) + DayStep(s)) * NANOS_PER_DAY
  }

  /** A year is twelve months and a quarter is three, on every date. */
  lemma AdvanceByMonths(s: Schedule, t: Instant)
    requires MonthBased(s)
    ensures Advance(s, t) == AddDate(t, s.offset, 0, MonthStep(s), 0)
    ensures s.unit.Month? ==> MonthStep(s) == s.every
    ensures s.unit.Quarter? ==> MonthStep(s) == 3 * s.every
    ensures s.unit.Year? ==> MonthStep(s) == 12 * s.every
  {
    hide FirstDay, MonthLength, MonthOf, LocalDay, TimeOfDay, AtDay;
    AddDateShift(t, s.offset, s.every, 0, 0);
    AddDateShift(t, s.offset, 0, 12 * s.every, 0);
  }

  /** A day is 24 hours and a week is seven days, on every date. */
  lemma AdvanceByDays(s: Schedule, t: Instant)
    ensures s.unit.Day? ==> Advance(s, t) == t + s.every * 86_400_000_000_000
    ensures s.unit.Week? ==> Advance(s, t) == t + 7 * s.every * 86_400_000_000_000
  {
    hide FirstDay, MonthLength, MonthOf, LocalDay, TimeOfDay, AtDay;
    AddDateShift(t, s.offset, 0, 0, DayStep(s));
  }

  /** Each step of m months gains between 28 m and 31 m days; steps of days gain exactly that many. */
  lemma AdvanceGain(s: Schedule, t: Instant)
    requires Valid(s)
    ensures 0 < LeastGain(s) <= Advance(s, t) - t <= MostGain(s)
    ensures MonthBased(s) ==>
              && 28 * MonthStep(s) * 86_400_000_000_000 <= Advance(s, t) - t
              && Advance(s, t) - t <= 31 * MonthStep(s) * 86_400_000_000_000
  {
    hide FirstDay, MonthLength, MonthOf, LocalDay, TimeOfDay, AtDay;
    var month := MonthOf(LocalDay(t, s.offset));
    if MonthBased(s) {
      AdvanceByMonths(s, t);
      AddDateShift(t, s.offset, 0, MonthStep(s), 0);
      MonthSpan(month, MonthStep(s));
    } else {
      AddDateShift(t, s.offset, 0, 0, DayStep(s));
    }
  }

  lemma AdvanceForward(s: Schedule, t: Instant)
    requires Valid(s)
    ensures Advance(s, t) > t
  {
    hide Advance, LeastGain, MostGain;
    AdvanceGain(s, t);
  }

  lemma {:induction false} OccurrencesIncrease(s: Schedule, i: nat, j: nat)
    requires Valid(s) && i < j
    ensures Occurrence(s, i) < Occurrence(s, j)
    decreases j
  {
    hide Advance;
    AdvanceForward(s, Occurrence(s, j - 1));
    if i < j - 1 {
      OccurrencesIncrease(s, i, j - 1);
    }
  }

  /** The k-th occurrence lies between k shortest and k longest steps after the start. */
  lemma {:induction false} OccurrenceBounds(s: Schedule, k: nat)
    requires Valid(s)
    ensures k * LeastGain(s) <= Occurrence(s, k) - s.start <= k * MostGain(s)
  {
    hide Advance, LeastGain, MostGain;
    if k > 0 {
      OccurrenceBounds(s, k - 1);
      AdvanceGain(s, Occurrence(s, k - 1));
      assert k * LeastGain(s) == (k - 1) * LeastGain(s) + LeastGain(s);
      assert k * MostGain(s) == (k - 1) * MostGain(s) + MostGain(s);
    }
  }

  // How many steps lead from the start to the first occurrence after `after`.
  function StepsFrom(s: Schedule, after: Instant, k: nat): (n: nat)
    requires Valid(s)
    requires forall j: nat :: j < k ==> Occurrence(s, j) <= after
    ensures Occurrence(s, n) > after
    ensures forall j: nat :: j < n ==> Occurrence(s, j) <= after
    decreases after - Occurrence(s, k)
  {
    hide Advance;
    if Occurrence(s, k) > after then k
    else
      AdvanceForward(s, Occurrence(s, k));
      StepsFrom(s, after, k + 1)
  }

  function StepsPast(s: Schedule, after: Instant): (n: nat)
    requires Valid(s)
    ensures Occurrence(s, n) > after
    ensures forall j: nat :: j < n ==> Occurrence(s, j) <= after
  {
    StepsFrom(s, after, 0)
  }

  function NextOccurrence(s: Schedule, after: Instant): (next: Instant)
    requires Valid(s)
    ensures next > after && IsOccurrence(s, next)
  {
    Occurrence(s, StepsPast(s, after))
  }

  /** The next occurrence is the least one after `after`, and the search for it is bounded. */
  lemma NextIsLeast(s: Schedule, after: Instant, j: nat)
    requires Valid(s)
    ensures Occurrence(s, j) > after ==> NextOccurrence(s, after) <= Occurrence(s, j)
    ensures var n := StepsPast(s, after);
            n == 0 || (n - 1) * LeastGain(s) <= after - s.start
  {
    hide Advance, LeastGain;
    var n := StepsPast(s, after);
    if n < j {
      OccurrencesIncrease(s, n, j);
    }
    if n > 0 {
      OccurrenceBounds(s, n - 1);
    }
  }

  lemma StepsPastOccurrence(s: Schedule, k: nat)
    requires Valid(s)
    ensures StepsPast(s, Occurrence(s, k)) == k + 1
  {
    hide Advance;
    var n := StepsPast(s, Occurrence(s, k));
    OccurrencesIncrease(s, k, k + 1);
    if n < k {
      OccurrencesIncrease(s, n, k);
    }
    assert n > k;
    assert n <= k + 1;
  }

  /** Steps from the start date until it has passed `after`. */
  method Next(s: Schedule, after: Instant) returns (r: Result<Instant, ScheduleError>)
    ensures r == Err(StartDateRequired) <==> s.start == 0
    ensures r == Err(IntervalRequired) <==> s.start != 0 && s.every <= 0
    ensures r == Err(InvalidRecurrenceUnit) <==> s.start != 0 && s.every > 0 && s.unit.Unsupported?
    ensures r.Ok? <==> Valid(s)
    ensures r.Ok? ==> r.value > after
    ensures r.Ok? ==> IsOccurrence(s, r.value)
    ensures r.Ok? ==> forall j: nat :: Occurrence(s, j) > after ==> r.value <= Occurrence(s, j)
    ensures r.Ok? ==> r.value == NextOccurrence(s, after)
  {
    hide Advance;
    var invalid := Validate(s);
    if invalid.Some? {
      return Err(invalid.value);
    }
    var next := s.start;
    ghost var n: nat := 0;
    while next <= after
      invariant next == Occurrence(s, n)
      invariant forall j: nat :: j < n ==> Occurrence(s, j) <= after
      decreases after - next
    {
      AdvanceForward(s, next);
      next := Advance(s, next);
      n := n + 1;
    }
    forall j: nat | Occurrence(s, j) > after
      ensures next <= Occurrence(s, j)
    {
      NextIsLeast(s, after, j);
      if n < j {
        OccurrencesIncrease(s, n, j);
      }
    }
    NextIsLeast(s, after, n);
    assert Occurrence(s, n) == next;
    return Ok(next);
  }

  // ---- Day of the month along the sequence ----

  function StartMonth(s: Schedule): int {
    MonthOf(LocalDay(s.start, s.offset))
  }

  function DayOfOccurrence(s: Schedule, k: nat): int {
    LocalDate(Occurrence(s, k), s.offset).day
  }

  function MonthOfOccurrence(s: Schedule, k: nat): int {
    MonthOf(LocalDay(Occurrence(s, k), s.offset))
  }

  // The month k whole steps after the start month, and its length.
  function Target(s: Schedule, k: nat): int {
    StartMonth(s) + k * MonthStep(s)
  }

  function TargetLength(s: Schedule, k: nat): int {
    MonthLength(Target(s, k))
  }

  /** Step `f` is the first whose target month is too short for the start day. */
  ghost predicate FirstShortMonth(s: Schedule, f: nat) {
    && 0 < f
    && DayOfOccurrence(s, 0) > TargetLength(s, f)
    && forall i: nat :: 0 < i < f ==> DayOfOccurrence(s, 0) <= TargetLength(s, i)
  }

  lemma StepLanding(s: Schedule, k: nat)
    requires MonthBased(s)
    ensures var length := MonthLength(MonthOfOccurrence(s, k) + MonthStep(s));
            var day := DayOfOccurrence(s, k);
            if day <= length
            then DayOfOccurrence(s, k + 1) == day && MonthOfOccurrence(s, k + 1) == MonthOfOccurrence(s, k) + MonthStep(s)
            else && DayOfOccurrence(s, k + 1) == day - length
                 && 1 <= day - length <= 3
                 && MonthOfOccurrence(s, k + 1) == MonthOfOccurrence(s, k) + MonthStep(s) + 1
    ensures TimeOfDay(Occurrence(s, k + 1), s.offset) == TimeOfDay(Occurrence(s, k), s.offset)
  {
    hide FirstDay, MonthLength, MonthOf, LocalDay, TimeOfDay, AddDate, DateOf, MonthStep, Advance;
    AdvanceByMonths(s, Occurrence(s, k));
    AddMonthsLanding(Occurrence(s, k), s.offset, MonthStep(s));
  }

  lemma TargetStep(s: Schedule, k: nat)
    ensures Target(s, k + 1) == Target(s, k) + MonthStep(s)
  {
    hide MonthOf, LocalDay, MonthStep;
  }

  /** Until a target month is too short, the sequence visits the target months on the start day. */
  lemma {:induction false} BeforeShortMonth(s: Schedule, k: nat)
    requires MonthBased(s)
    requires forall i: nat :: 0 < i <= k ==> DayOfOccurrence(s, 0) <= TargetLength(s, i)
    ensures MonthOfOccurrence(s, k) == Target(s, k)
    ensures DayOfOccurrence(s, k) == DayOfOccurrence(s, 0)
    ensures TimeOfDay(Occurrence(s, k), s.offset) == TimeOfDay(s.start, s.offset)
  {
    hide MonthLength, LocalDay, MonthOf, MonthStep, Occurrence, TimeOfDay, DateOf;
    if k > 0 {
      BeforeShortMonth(s, k - 1);
      TargetStep(s, k - 1);
      StepLanding(s, k - 1);
      assert DayOfOccurrence(s, 0) <= TargetLength(s, k);
    } else {
      FirstOccurrence(s);
    }
  }

  lemma FirstOccurrence(s: Schedule)
    ensures Occurrence(s, 0) == s.start
    ensures MonthOfOccurrence(s, 0) == Target(s, 0)
  {
  }

  /** From the first short month on, the sequence is one month late and keeps the day it spilled to. */
  lemma {:induction false} AfterShortMonth(s: Schedule, f: nat, k: nat)
    requires MonthBased(s) && FirstShortMonth(s, f) && f <= k
    ensures MonthOfOccurrence(s, k) == Target(s, k) + 1
    ensures DayOfOccurrence(s, k) == DayOfOccurrence(s, 0) - TargetLength(s, f)
    ensures 1 <= DayOfOccurrence(s, k) <= 3
    ensures TimeOfDay(Occurrence(s, k), s.offset) == TimeOfDay(s.start, s.offset)
    decreases k
  {
    hide MonthLength, LocalDay, MonthOf, MonthStep, Occurrence, TimeOfDay, DateOf;
    TargetStep(s, k - 1);
    StepLanding(s, k - 1);
    if k == f {
      BeforeShortMonth(s, f - 1);
    } else {
      AfterShortMonth(s, f, k - 1);
    }
  }

  /** The day of the month changes at most once along the whole sequence. The change only
      happens to a day after the 28th, leads to one of the days 1 to 3, and is final. */
  lemma DayChangesAtMostOnce(s: Schedule, i: nat, j: nat)
    requires MonthBased(s) && i <= j
    ensures var before, after := DayOfOccurrence(s, i), DayOfOccurrence(s, j);
            || after == before
            || (before == DayOfOccurrence(s, 0) && before > 28 && 1 <= after <= 3)
  {
    hide MonthLength, LocalDay, MonthOf, MonthStep, Occurrence, DateOf;
    if f: nat :| f <= j && FirstShortMonth(s, f) {
      AfterShortMonth(s, f, j);
      if f <= i {
        AfterShortMonth(s, f, i);
      } else {
        BeforeShortMonth(s, i);
      }
    } else {
      NoShortMonth(s, j);
      BeforeShortMonth(s, i);
      BeforeShortMonth(s, j);
    }
  }

  lemma {:induction false} NoShortMonth(s: Schedule, k: nat)
    requires forall f: nat :: f <= k ==> !FirstShortMonth(s, f)
    ensures forall i: nat :: 0 < i <= k ==> DayOfOccurrence(s, 0) <= TargetLength(s, i)
  {
    hide TargetLength, DayOfOccurrence;
    if k > 0 {
      NoShortMonth(s, k - 1);
      assert !FirstShortMonth(s, k);
    }
  }

  /** The day is kept through step k if and only if every target month up to k has that day. */
  lemma DayKeptIff(s: Schedule, k: nat)
    requires MonthBased(s)
    ensures (forall j: nat :: j <= k ==> DayOfOccurrence(s, j) == DayOfOccurrence(s, 0))
       <==> (forall i: nat :: 0 < i <= k ==> DayOfOccurrence(s, 0) <= TargetLength(s, i))
  {
    hide MonthLength, LocalDay, MonthOf, MonthStep, Occurrence, DateOf;
    if forall i: nat :: 0 < i <= k ==> DayOfOccurrence(s, 0) <= TargetLength(s, i) {
      forall j: nat | j <= k
        ensures DayOfOccurrence(s, j) == DayOfOccurrence(s, 0)
      {
        BeforeShortMonth(s, j);
      }
    } else {
      if f: nat :| f <= k && FirstShortMonth(s, f) {
        AfterShortMonth(s, f, f);
        assert TargetLength(s, f) > 0 by { LengthPositive(s, f); }
        assert DayOfOccurrence(s, f) != DayOfOccurrence(s, 0);
      } else {
        NoShortMonth(s, k);
      }
    }
  }

  lemma LengthPositive(s: Schedule, k: nat)
    ensures 28 <= TargetLength(s, k) <= 31
  {
  }

  // ---- Iterated steps against one long step ----

  /** k steps of days or weeks are one step of k times as many days. */
  lemma {:induction false} DayStepsCompose(s: Schedule, k: nat)
    requires s.unit.Day? || s.unit.Week?
    ensures Occurrence(s, k) == AddDate(s.start, s.offset, 0, 0, k * DayStep(s))
  {
    hide FirstDay, MonthLength, MonthOf, LocalDay, TimeOfDay, AddDate;
    var month := MonthOf(LocalDay(s.start, s.offset));
    AddDateShift(s.start, s.offset, 0, 0, k * DayStep(s));
    if k > 0 {
      DayStepsCompose(s, k - 1);
      AddDateShift(s.start, s.offset, 0, 0, (k - 1) * DayStep(s));
      AddDateShift(Occurrence(s, k - 1), s.offset, 0, 0, DayStep(s));
      assert k * DayStep(s) == (k - 1) * DayStep(s) + DayStep(s);
    }
  }

  /** k month steps are one step of k times as many months when no month on the way,
      the last one aside, is too short; in particular for start days up to 28. */
  lemma MonthStepsCompose(s: Schedule, k: nat)
    requires MonthBased(s)
    requires forall i: nat :: 0 < i < k ==> DayOfOccurrence(s, 0) <= TargetLength(s, i)
    ensures Occurrence(s, k) == AddDate(s.start, s.offset, 0, k * MonthStep(s), 0)
  {
    hide FirstDay, MonthLength, MonthOf, LocalDay, TimeOfDay, AddDate, MonthStep, DateOf;
    if k == 0 {
      AddDateShift(s.start, s.offset, 0, 0, 0);
    } else {
      var previous := Occurrence(s, k - 1);
      BeforeShortMonth(s, k - 1);
      AdvanceByMonths(s, previous);
      SameLanding(s, k);
    }
  }

  lemma SameLanding(s: Schedule, k: nat)
    requires k > 0
    requires MonthOfOccurrence(s, k - 1) == Target(s, k - 1)
    requires DayOfOccurrence(s, k - 1) == DayOfOccurrence(s, 0)
    requires TimeOfDay(Occurrence(s, k - 1), s.offset) == TimeOfDay(s.start, s.offset)
    ensures AddDate(Occurrence(s, k - 1), s.offset, 0, MonthStep(s), 0)
         == AddDate(s.start, s.offset, 0, k * MonthStep(s), 0)
  {
    hide FirstDay, MonthLength, MonthOf, LocalDay, TimeOfDay, MonthStep;
    TargetStep(s, k - 1);
    FirstOccurrence(s);
  }

  lemma ClosedFormUpToDay28(s: Schedule, k: nat)
    requires MonthBased(s) && DayOfOccurrence(s, 0) <= 28
    ensures Occurrence(s, k) == AddDate(s.start, s.offset, 0, k * MonthStep(s), 0)
  {
    hide Occurrence, AddDate, TargetLength, DayOfOccurrence;
    forall i: nat | 0 < i < k
      ensures DayOfOccurrence(s, 0) <= TargetLength(s, i)
    {
      LengthPositive(s, i);
    }
    MonthStepsCompose(s, k);
  }

  /** Past the first short month f, k steps agree with one long step exactly when the
      k-th target month is as long as the f-th. */
  lemma ClosedFormAfterShortMonth(s: Schedule, f: nat, k: nat)
    requires MonthBased(s) && FirstShortMonth(s, f) && f <= k
    ensures Occurrence(s, k) == AddDate(s.start, s.offset, 0, k * MonthStep(s), 0)
       <==> TargetLength(s, k) == TargetLength(s, f)
  {
    hide FirstDay, MonthLength, MonthOf, LocalDay, TimeOfDay, AddDate, MonthStep, DateOf, Occurrence;
    AfterShortMonth(s, f, k);
    FirstOccurrence(s);
    var once := AddDate(s.start, s.offset, 0, k * MonthStep(s), 0);
    AddMonthsLanding(s.start, s.offset, k * MonthStep(s));
    if TargetLength(s, k) == TargetLength(s, f) {
      SameDateSameInstant(Occurrence(s, k), once, s.offset);
    }
  }

  /** The condition is needed: a monthly schedule from 31 January of year 1 is in April after
      two steps, while one step of two months ends in March. */
  lemma ClosedFormFails(s: Schedule)
    requires s == Schedule(30 * NANOS_PER_DAY, 0, 1, Month)
    ensures Valid(s)
    ensures Occurrence(s, 2) != AddDate(s.start, s.offset, 0, 2 * MonthStep(s), 0)
  {
    hide FirstDay, Occurrence, AddDate;
    FirstDayOrigin();
    QuotientUnique(s.start, NANOS_PER_DAY, 30, 0);
    MonthOfUnique(30, JANUARY_OF_YEAR_1);
    FirstOccurrence(s);
    assert FirstShortMonth(s, 1);
    ClosedFormAfterShortMonth(s, 1, 2);
  }

  lemma SameDateSameInstant(a: Instant, b: Instant, offset: int)
    requires MonthOf(LocalDay(a, offset)) == MonthOf(LocalDay(b, offset))
    requires LocalDate(a, offset).day == LocalDate(b, offset).day
    requires TimeOfDay(a, offset) == TimeOfDay(b, offset)
    ensures a == b
  {
    hide FirstDay, MonthLength, MonthOf, LocalDay, TimeOfDay;
    Parts(a, offset);
    Parts(b, offset);
  }
}
