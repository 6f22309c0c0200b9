/** Interval scheduling of irrigation tasks: when a scheduled task is due, and what that means
    for the firings of a whole run. */
module IntervalSchedule {
  import opened Calendar
  import opened Outcomes
  import opened Collections

  datatype SchedulingType = Cron | Interval

  datatype ClockTime = ClockTime(hour: int, minute: int)

  /** `initialDay` carries the zone it was entered in, `initialOffset`. `executionTime` is nothing
      when the text is not an HH:MM time. */
  datatype Scheduling = Scheduling(
    kind: SchedulingType,
    initialDay: Instant,
    initialOffset: int,
    dayInterval: int,
    executionTime: Option<ClockTime>)

  datatype CommandTemplate = CommandTemplate(port: int, priority: string, index: int, value: int, waitFor: int)

  datatype ScheduledTask = ScheduledTask(
    id: ID,
    deviceId: ID,
    templates: seq<CommandTemplate>,
    scheduling: Scheduling,
    isActive: bool,
    lastExecutedAt: Option<Instant>)

  function ScheduledTaskId(task: ScheduledTask): ID { task.id }

  datatype ScheduleError = IntervalOnly | UnknownTimezone | BadExecutionTime

  /** What the builder and the parser of the execution time guarantee. */
  predicate ValidScheduling(s: Scheduling) {
    && s.kind.Interval?
    && s.dayInterval > 0
    && s.executionTime.Some?
    && 0 <= s.executionTime.value.hour <= 23 && 0 <= s.executionTime.value.minute <= 59
  }

  function NanosOf(t: ClockTime): int {
    (60 * t.hour + t.minute) * NANOS_PER_MINUTE
  }

  function CalculateNextIntervalExecution(initialDay: Instant, initialOffset: int, dayInterval: int, time: ClockTime,
          reference: Instant, offset: int, isFirst: bool): Instant
  {
    if isFirst then
      var day := LocalDate(initialDay, initialOffset);
      var candidate := GoDate(day.month, day.day, NanosOf(time), offset);
      if candidate < reference then AddDate(candidate, offset, 0, 0, dayInterval) else candidate
    else
      var last := LocalDate(reference, offset);
      var lastDate := GoDate(last.month, last.day, 0, offset);
      var next := LocalDate(AddDate(lastDate, offset, 0, 0, dayInterval), offset);
      GoDate(next.month, next.day, NanosOf(time), offset)
  }

  /** `zone` is the offset of the tenant's time zone, or nothing if it is unknown. */
  function CalculateNextExecution(task: ScheduledTask, zone: Option<int>): Result<Instant, ScheduleError> {
    var s := task.scheduling;
    if s.kind != Interval then Err(IntervalOnly)
    else if zone.None? then Err(UnknownTimezone)
    else if s.executionTime.None? then Err(BadExecutionTime)
    else if task.lastExecutedAt.None? then
      Ok(CalculateNextIntervalExecution(s.initialDay, s.initialOffset, s.dayInterval, s.executionTime.value,
                                        s.initialDay, zone.value, true))
    else
      Ok(CalculateNextIntervalExecution(s.initialDay, s.initialOffset, s.dayInterval, s.executionTime.value,
                                        task.lastExecutedAt.value, zone.value, false))
  }

  /** The next due time is `dayInterval` local days after the day of the last execution, at the
      execution time, whatever time of day that execution had. */
  lemma NextDueAfterExecution(s: Scheduling, last: Instant, offset: int)
    requires ValidScheduling(s)
    ensures CalculateNextIntervalExecution(s.initialDay, s.initialOffset, s.dayInterval, s.executionTime.value, last, offset, false)
         == AtDay(LocalDay(last, offset) + s.dayInterval, NanosOf(s.executionTime.value), offset)
  {
    hide FirstDay, MonthLength, MonthOf, LocalDay, TimeOfDay, AtDay, NanosOf;
    var day := LocalDay(last, offset);
    AtDayParts(day, 0, offset);
    AddDateShift(AtDay(day, 0, offset), offset, 0, 0, s.dayInterval);
    DayDifference(day + s.dayInterval, day, 0, offset);
    AtDayParts(day + s.dayInterval, 0, offset);
  }

  // The first candidate: the initial day, read in its own zone, at the execution time of the tenant's zone.
  function FirstCandidate(s: Scheduling, offset: int): Instant
    requires s.executionTime.Some?
  {
    AtDay(LocalDay(s.initialDay, s.initialOffset), NanosOf(s.executionTime.value), offset)
  }

  function FirstDue(s: Scheduling, offset: int): Instant
    requires s.executionTime.Some?
  {
    CalculateNextIntervalExecution(s.initialDay, s.initialOffset, s.dayInterval, s.executionTime.value, s.initialDay, offset, true)
  }

  lemma FirstDueCases(s: Scheduling, offset: int)
    requires ValidScheduling(s)
    ensures FirstDue(s, offset) ==
            if FirstCandidate(s, offset) < s.initialDay then FirstCandidate(s, offset) + s.dayInterval * NANOS_PER_DAY
            else FirstCandidate(s, offset)
  {
    hide FirstDay, MonthLength, MonthOf, LocalDay, TimeOfDay, AtDay, NanosOf;
    AddDateShift(FirstCandidate(s, offset), offset, 0, 0, s.dayInterval);
  }

  /** How far the first candidate lies from the initial day: the difference of the times of day
      and of the two zones. */
  lemma CandidateDistance(s: Scheduling, offset: int)
    requires ValidScheduling(s)
    ensures FirstCandidate(s, offset) - s.initialDay
         == NanosOf(s.executionTime.value) - TimeOfDay(s.initialDay, s.initialOffset) + (s.initialOffset - offset)
  {
    Parts(s.initialDay, s.initialOffset);
  }

  predicate InFirstWindow(s: Scheduling, due: Instant) {
    s.initialDay <= due < s.initialDay + s.dayInterval * NANOS_PER_DAY
  }

  /** The first due time lies within one interval after the initial day exactly if the times of day
      and the zones put the candidate less than an interval after it and at most one before it. */
  lemma FirstDueWindowIff(s: Scheduling, offset: int)
    requires ValidScheduling(s)
    ensures InFirstWindow(s, FirstDue(s, offset)) <==>
            var distance := NanosOf(s.executionTime.value) - TimeOfDay(s.initialDay, s.initialOffset) + (s.initialOffset - offset);
            -s.dayInterval * NANOS_PER_DAY <= distance < s.dayInterval * NANOS_PER_DAY
  {
    hide LocalDay, TimeOfDay, AtDay, FirstDue, NanosOf, FirstCandidate;
    FirstDueCases(s, offset);
    CandidateDistance(s, offset);
  }

  const LARGEST_ZONE_DIFFERENCE := 26 * 60 * NANOS_PER_MINUTE

  /** It does so whenever the initial day was entered in the tenant's zone, and for every pair of
      real zones from an interval of three days on. */
  lemma FirstDueInWindow(s: Scheduling, offset: int)
    requires ValidScheduling(s)
    requires s.initialOffset == offset
          || (s.dayInterval >= 3 && -LARGEST_ZONE_DIFFERENCE <= s.initialOffset - offset <= LARGEST_ZONE_DIFFERENCE)
    ensures InFirstWindow(s, FirstDue(s, offset))
  {
    hide LocalDay, FirstDue, InFirstWindow;
    ExecutionTimeInDay(s);
    FirstDueWindowIff(s, offset);
    IntervalInNanos(s);
  }

  lemma ExecutionTimeInDay(s: Scheduling)
    requires ValidScheduling(s)
    ensures 0 <= NanosOf(s.executionTime.value) < NANOS_PER_DAY
  {
  }

  lemma IntervalInNanos(s: Scheduling)
    requires ValidScheduling(s)
    ensures s.dayInterval * NANOS_PER_DAY >= NANOS_PER_DAY
    ensures s.dayInterval >= 3 ==> s.dayInterval * NANOS_PER_DAY >= 3 * NANOS_PER_DAY
  {
  }

  /** It can miss the window when the zones differ: an initial day entered as 23:59 in UTC-12 for a
      tenant in UTC+14, daily at 00:00, is first due before the initial day. */
  lemma FirstDueCanPrecedeInitialDay(s: Scheduling)
    requires s == Scheduling(Interval, (36 * 60 - 1) * NANOS_PER_MINUTE, -12 * 60 * NANOS_PER_MINUTE, 1, Some(ClockTime(0, 0)))
    ensures ValidScheduling(s) && FirstDue(s, 14 * 60 * NANOS_PER_MINUTE) < s.initialDay
  {
    hide FirstDue;
    var offset := 14 * 60 * NANOS_PER_MINUTE;
    QuotientUnique(s.initialDay + s.initialOffset, NANOS_PER_DAY, 1 - 1, (24 * 60 - 1) * NANOS_PER_MINUTE);
    FirstDueCases(s, offset);
  }

  // ---- Runs ----

  /** Whether a task that a tick looks at has to run. */
  predicate ShouldExecute(task: ScheduledTask, zone: Option<int>, now: Instant) {
    CalculateNextExecution(task, zone).Ok? && CalculateNextExecution(task, zone).value <= now
  }

  /** One tick as one scheduled task sees it: whether the worker lists it as active, the time of
      the check, whether a task could be created, the time recorded, and whether that was saved. */
  datatype Tick = Tick(listed: bool, checkedAt: Instant, createOk: bool, recordedAt: Instant, saveOk: bool)

  predicate Fires(task: ScheduledTask, offset: int, tick: Tick) {
    tick.listed && ShouldExecute(task, Some(offset), tick.checkedAt) && tick.createOk
  }

  function AfterTick(task: ScheduledTask, offset: int, tick: Tick): ScheduledTask {
    if Fires(task, offset, tick) && tick.saveOk then task.(lastExecutedAt := Some(tick.recordedAt)) else task
  }

  /** A run of ticks with a fixed scheduling and zone; the clock never goes back. */
  ghost predicate Run(tasks: seq<ScheduledTask>, ticks: seq<Tick>, offset: int) {
    && |tasks| == |ticks| + 1
    && ValidScheduling(tasks[0].scheduling)
    && (forall i :: 0 <= i < |ticks| ==> tasks[i + 1] == AfterTick(tasks[i], offset, ticks[i]))
    && (forall i :: 0 <= i < |ticks| ==> ticks[i].checkedAt <= ticks[i].recordedAt)
    && (forall i, j :: 0 <= i < j < |ticks| ==> ticks[i].recordedAt <= ticks[j].checkedAt)
  }

  ghost predicate SavesSucceed(ticks: seq<Tick>) {
    forall i :: 0 <= i < |ticks| ==> ticks[i].saveOk
  }

  function Due(task: ScheduledTask, offset: int): Instant
    requires ValidScheduling(task.scheduling)
  {
    CalculateNextExecution(task, Some(offset)).value
  }

  lemma {:induction false} SchedulingStays(tasks: seq<ScheduledTask>, ticks: seq<Tick>, offset: int, i: nat)
    requires Run(tasks, ticks, offset) && i < |tasks|
    ensures tasks[i].scheduling == tasks[0].scheduling && ValidScheduling(tasks[i].scheduling)
  {
    hide Fires;
    if i > 0 {
      SchedulingStays(tasks, ticks, offset, i - 1);
      assert tasks[i] == AfterTick(tasks[i - 1], offset, ticks[i - 1]);
    }
  }

  // How many ticks in i..j fire.
  function Firings(tasks: seq<ScheduledTask>, ticks: seq<Tick>, offset: int, i: nat, j: nat): nat
    requires i <= j <= |ticks| < |tasks|
  {
    if i == j then 0
    else Firings(tasks, ticks, offset, i, j - 1) + (if Fires(tasks[j - 1], offset, ticks[j - 1]) then 1 else 0)
  }

  /** The due time in closed form: before the first recorded execution the candidate of the initial day, or one
      interval later if that precedes the initial day; afterwards `dayInterval` local days after the day of
      the last one, at the execution time. */
  function DueDate(task: ScheduledTask, offset: int): Instant
    requires ValidScheduling(task.scheduling)
  {
    var s := task.scheduling;
    match task.lastExecutedAt
    case None =>
      if FirstCandidate(s, offset) < s.initialDay then FirstCandidate(s, offset) + s.dayInterval * NANOS_PER_DAY
      else FirstCandidate(s, offset)
    case Some(last) => AtDay(LocalDay(last, offset) + s.dayInterval, NanosOf(s.executionTime.value), offset)
  }

  lemma DueInClosedForm(task: ScheduledTask, offset: int)
    requires ValidScheduling(task.scheduling)
    ensures CalculateNextExecution(task, Some(offset)) == Ok(DueDate(task, offset))
  {
    hide CalculateNextIntervalExecution, LocalDay, AtDay, NanosOf, FirstCandidate;
    match task.lastExecutedAt {
      case None => FirstDueCases(task.scheduling, offset);
      case Some(last) => NextDueAfterExecution(task.scheduling, last, offset);
    }
  }

  lemma ClockReading(t: ClockTime)
    requires 0 <= t.hour <= 23 && 0 <= t.minute <= 59
    ensures NanosOf(t) / 3_600_000_000_000 == t.hour
    ensures NanosOf(t) % 3_600_000_000_000 == t.minute * 60_000_000_000
  {
    QuotientUnique(NanosOf(t), 3_600_000_000_000, t.hour, t.minute * 60_000_000_000);
  }

  /** At the due time the local clock reads the hour and the minute of the schedule, with no seconds; the local day
      is `dayInterval` days after that of the last execution, or the initial day or that many days after it. */
  lemma DueOnTheClock(task: ScheduledTask, offset: int)
    requires task.scheduling.kind.Interval? && task.scheduling.dayInterval > 0 && task.scheduling.executionTime.Some?
    requires 0 <= task.scheduling.executionTime.value.hour < 24 && 0 <= task.scheduling.executionTime.value.minute < 60
    ensures CalculateNextExecution(task, Some(offset)).Ok?
    ensures var due, time := CalculateNextExecution(task, Some(offset)).value, task.scheduling.executionTime.value;
            && TimeOfDay(due, offset) / 3_600_000_000_000 == time.hour
            && TimeOfDay(due, offset) % 3_600_000_000_000 == time.minute * 60_000_000_000
    ensures var due, s := CalculateNextExecution(task, Some(offset)).value, task.scheduling;
            match task.lastExecutedAt
            case Some(last) => LocalDay(due, offset) == LocalDay(last, offset) + s.dayInterval
            case None =>
              var day := LocalDay(s.initialDay, s.initialOffset);
              LocalDay(due, offset) == if FirstCandidate(s, offset) < s.initialDay then day + s.dayInterval else day
  {
    hide CalculateNextExecution, LocalDay, TimeOfDay, AtDay, NanosOf;
    var s := task.scheduling;
    DueInClosedForm(task, offset);
    ExecutionTimeInDay(s);
    ClockReading(s.executionTime.value);
    match task.lastExecutedAt {
      case Some(last) => AtDayParts(LocalDay(last, offset) + s.dayInterval, NanosOf(s.executionTime.value), offset);
      case None =>
        var day := LocalDay(s.initialDay, s.initialOffset);
        AtDayParts(day, NanosOf(s.executionTime.value), offset);
        AtDayParts(day + s.dayInterval, NanosOf(s.executionTime.value), offset);
        DayDifference(day + s.dayInterval, day, NanosOf(s.executionTime.value), offset);
    }
  }

  /** A tick of a run fires if and only if it lists the task, can create it, and is not earlier than that due
      time; so never on a local day less than `dayInterval` days after that of the last recorded execution. */
  lemma FiresIffDue(tasks: seq<ScheduledTask>, ticks: seq<Tick>, offset: int, i: nat)
    requires Run(tasks, ticks, offset) && i < |ticks|
    ensures ValidScheduling(tasks[i].scheduling)
    ensures Fires(tasks[i], offset, ticks[i]) <==>
            ticks[i].listed && ticks[i].createOk && ticks[i].checkedAt >= DueDate(tasks[i], offset)
    ensures Fires(tasks[i], offset, ticks[i]) && tasks[i].lastExecutedAt.Some? ==>
              LocalDay(ticks[i].checkedAt, offset)
              >= LocalDay(tasks[i].lastExecutedAt.value, offset) + tasks[i].scheduling.dayInterval
  {
    SchedulingStays(tasks, ticks, offset, i);
    hide CalculateNextExecution, LocalDay, NanosOf, AtDay, FirstCandidate, Run;
    var task := tasks[i];
    DueInClosedForm(task, offset);
    if task.lastExecutedAt.Some? && ticks[i].checkedAt >= DueDate(task, offset) {
      var day := LocalDay(task.lastExecutedAt.value, offset) + task.scheduling.dayInterval;
      ExecutionTimeInDay(task.scheduling);
      AtDayParts(day, NanosOf(task.scheduling.executionTime.value), offset);
      LocalDayMonotone(DueDate(task, offset), ticks[i].checkedAt, offset);
    }
  }

  // While nothing fires, the last recorded execution stays.
  lemma {:induction false} QuietTicks(tasks: seq<ScheduledTask>, ticks: seq<Tick>, offset: int, i: nat, j: nat)
    requires Run(tasks, ticks, offset) && i <= j < |tasks|
    requires Firings(tasks, ticks, offset, i, j) == 0
    ensures tasks[j] == tasks[i]
    decreases j
  {
    hide Fires;
    if i < j {
      QuietTicks(tasks, ticks, offset, i, j - 1);
      assert tasks[j] == AfterTick(tasks[j - 1], offset, ticks[j - 1]);
    }
  }

  lemma LocalDayMonotone(a: Instant, b: Instant, offset: int)
    requires a <= b
    ensures LocalDay(a, offset) <= LocalDay(b, offset)
  {
    hide LocalDay, TimeOfDay;
    Parts(a, offset);
    Parts(b, offset);
  }

  /** After a recorded firing at tick i, a tick that fires without another firing in between comes
      at or after the execution time, at least `dayInterval` local days after the recorded day. */
  lemma NextFiring(tasks: seq<ScheduledTask>, ticks: seq<Tick>, offset: int, i: nat, j: nat)
    requires Run(tasks, ticks, offset) && i < j < |ticks|
    requires Fires(tasks[i], offset, ticks[i]) && ticks[i].saveOk
    requires Firings(tasks, ticks, offset, i + 1, j) == 0 && Fires(tasks[j], offset, ticks[j])
    ensures tasks[0].scheduling.executionTime.Some?
    ensures ticks[j].checkedAt >= AtDay(LocalDay(ticks[i].recordedAt, offset) + tasks[0].scheduling.dayInterval,
                                        NanosOf(tasks[0].scheduling.executionTime.value), offset)
    ensures LocalDay(ticks[j].checkedAt, offset) >= LocalDay(ticks[i].recordedAt, offset) + tasks[0].scheduling.dayInterval
  {
    hide CalculateNextIntervalExecution, LocalDay, AtDay, NanosOf;
    var s := tasks[0].scheduling;
    SchedulingStays(tasks, ticks, offset, j);
    SchedulingStays(tasks, ticks, offset, i);
    QuietTicks(tasks, ticks, offset, i + 1, j);
    assert tasks[i + 1] == AfterTick(tasks[i], offset, ticks[i]);
    NextDueAfterExecution(s, ticks[i].recordedAt, offset);
    ExecutionTimeInDay(s);
    var due := AtDay(LocalDay(ticks[i].recordedAt, offset) + s.dayInterval, NanosOf(s.executionTime.value), offset);
    AtDayParts(LocalDay(ticks[i].recordedAt, offset) + s.dayInterval, NanosOf(s.executionTime.value), offset);
    LocalDayMonotone(due, ticks[j].checkedAt, offset);
  }

  // The last firing before j, given that there is one from i on.
  lemma {:induction false} LastFiring(tasks: seq<ScheduledTask>, ticks: seq<Tick>, offset: int, i: nat, j: nat)
    returns (k: nat)
    requires i <= j <= |ticks| < |tasks| && Firings(tasks, ticks, offset, i, j) > 0
    ensures i <= k < j && Fires(tasks[k], offset, ticks[k])
    ensures Firings(tasks, ticks, offset, k + 1, j) == 0
    ensures Firings(tasks, ticks, offset, i, k) == Firings(tasks, ticks, offset, i, j) - 1
    decreases j
  {
    hide Fires;
    if Fires(tasks[j - 1], offset, ticks[j - 1]) {
      k := j - 1;
    } else {
      k := LastFiring(tasks, ticks, offset, i, j - 1);
    }
  }

  /** n firings take at least n intervals: from one firing to a later one, the local day advances
      by `dayInterval` for every firing on the way. */
  lemma {:induction false} FiringsSpread(tasks: seq<ScheduledTask>, ticks: seq<Tick>, offset: int, i: nat, j: nat)
    requires Run(tasks, ticks, offset) && SavesSucceed(ticks) && i <= j < |ticks|
    requires Fires(tasks[i], offset, ticks[i]) && Fires(tasks[j], offset, ticks[j])
    ensures LocalDay(ticks[j].checkedAt, offset) - LocalDay(ticks[i].checkedAt, offset)
         >= tasks[0].scheduling.dayInterval * Firings(tasks, ticks, offset, i, j)
    decreases j
  {
    hide Fires, LocalDay, AtDay, NanosOf;
    if i < j {
      OneFiring(tasks, ticks, offset, i);
      FiringsAdd(tasks, ticks, offset, i, i + 1, j);
      var k := LastFiring(tasks, ticks, offset, i, j);
      FiringsSpread(tasks, ticks, offset, i, k);
      NextFiring(tasks, ticks, offset, k, j);
      LocalDayMonotone(ticks[k].checkedAt, ticks[k].recordedAt, offset);
      var n, d := Firings(tasks, ticks, offset, i, j), tasks[0].scheduling.dayInterval;
      assert d * n == d * (n - 1) + d;
    }
  }

  lemma OneFiring(tasks: seq<ScheduledTask>, ticks: seq<Tick>, offset: int, i: nat)
    requires i < |ticks| < |tasks|
    ensures Firings(tasks, ticks, offset, i, i + 1) == if Fires(tasks[i], offset, ticks[i]) then 1 else 0
  {
    hide Fires;
    assert Firings(tasks, ticks, offset, i, i) == 0;
  }

  lemma {:induction false} FiringsAdd(tasks: seq<ScheduledTask>, ticks: seq<Tick>, offset: int, i: nat, k: nat, j: nat)
    requires i <= k <= j <= |ticks| < |tasks|
    ensures Firings(tasks, ticks, offset, i, j) == Firings(tasks, ticks, offset, i, k) + Firings(tasks, ticks, offset, k, j)
    decreases j
  {
    hide Fires;
    if k < j {
      FiringsAdd(tasks, ticks, offset, i, k, j - 1);
    }
  }

  lemma FirstBeforeLast(tasks: seq<ScheduledTask>, ticks: seq<Tick>, offset: int, i: nat, j: nat, first: nat, last: nat)
    requires i <= first < j && i <= last < j <= |ticks| < |tasks|
    requires Firings(tasks, ticks, offset, i, first) == 0
    requires Fires(tasks[last], offset, ticks[last]) && Firings(tasks, ticks, offset, last + 1, j) == 0
    ensures first <= last
    ensures Firings(tasks, ticks, offset, first, last) == Firings(tasks, ticks, offset, i, j) - 1
  {
    hide Fires;
    OneFiring(tasks, ticks, offset, last);
    if last < first {
      FiringsAdd(tasks, ticks, offset, i, last, first);
      FiringsAdd(tasks, ticks, offset, last, last + 1, first);
      assert false;
    }
    FiringsAdd(tasks, ticks, offset, i, first, j);
    FiringsAdd(tasks, ticks, offset, first, last, j);
    FiringsAdd(tasks, ticks, offset, last, last + 1, j);
  }

  /** There are no bursts: any ticks whose local days span fewer than W days fire at most
      W / dayInterval times, rounded up: n firings need (n - 1) * dayInterval < W. */
  lemma NoBurst(tasks: seq<ScheduledTask>, ticks: seq<Tick>, offset: int, i: nat, j: nat, days: nat)
    requires Run(tasks, ticks, offset) && SavesSucceed(ticks) && i < j <= |ticks|
    requires LocalDay(ticks[j - 1].checkedAt, offset) - LocalDay(ticks[i].checkedAt, offset) < days
    ensures var d := tasks[0].scheduling.dayInterval;
            d > 0 && (Firings(tasks, ticks, offset, i, j) - 1) * d < days
  {
    hide Fires, LocalDay, Run, Firings;
    PositiveInterval(tasks, ticks, offset);
    var n, d := Firings(tasks, ticks, offset, i, j), tasks[0].scheduling.dayInterval;
    TickDays(tasks, ticks, offset, i, j - 1);
    if n > 1 {
      var last := LastFiring(tasks, ticks, offset, i, j);
      var first := FirstFiring(tasks, ticks, offset, i, j);
      FirstBeforeLast(tasks, ticks, offset, i, j, first, last);
      FiringsSpread(tasks, ticks, offset, first, last);
      TickDays(tasks, ticks, offset, i, first);
      TickDays(tasks, ticks, offset, last, j - 1);
      Commutes(d, n - 1);
    } else {
      SmallProduct(n, d);
    }
  }

  lemma PositiveInterval(tasks: seq<ScheduledTask>, ticks: seq<Tick>, offset: int)
    requires Run(tasks, ticks, offset)
    ensures tasks[0].scheduling.dayInterval > 0 && |tasks| == |ticks| + 1
  {
  }

  lemma Commutes(a: int, b: int)
    ensures a * b == b * a
  {
  }

  lemma SmallProduct(n: nat, d: nat)
    requires n <= 1
    ensures (n - 1) * d <= 0
  {
  }

  lemma TickDays(tasks: seq<ScheduledTask>, ticks: seq<Tick>, offset: int, i: nat, j: nat)
    requires Run(tasks, ticks, offset) && i <= j < |ticks|
    ensures LocalDay(ticks[i].checkedAt, offset) <= LocalDay(ticks[j].checkedAt, offset)
  {
    LocalDayMonotone(ticks[i].checkedAt, ticks[j].checkedAt, offset);
  }

  lemma {:induction false} FirstFiring(tasks: seq<ScheduledTask>, ticks: seq<Tick>, offset: int, i: nat, j: nat)
    returns (k: nat)
    requires i <= j <= |ticks| < |tasks| && Firings(tasks, ticks, offset, i, j) > 0
    ensures i <= k < j && Fires(tasks[k], offset, ticks[k])
    ensures Firings(tasks, ticks, offset, i, k) == 0
    decreases j
  {
    hide Fires;
    if Firings(tasks, ticks, offset, i, j - 1) > 0 {
      k := FirstFiring(tasks, ticks, offset, i, j - 1);
    } else {
      k := j - 1;
    }
  }

  /** However long the worker was away, the first tick that lists a due task and can create it
      fires, and then no tick does until `dayInterval` local days later. */
  lemma OutageFiresOnce(tasks: seq<ScheduledTask>, ticks: seq<Tick>, offset: int, i: nat, j: nat)
    requires Run(tasks, ticks, offset) && SavesSucceed(ticks) && i < j < |ticks|
    requires ValidScheduling(tasks[i].scheduling)
    requires ticks[i].listed && ticks[i].createOk && ticks[i].checkedAt >= Due(tasks[i], offset)
    ensures Fires(tasks[i], offset, ticks[i])
    ensures LocalDay(ticks[j].checkedAt, offset) < LocalDay(ticks[i].recordedAt, offset) + tasks[0].scheduling.dayInterval ==>
              Firings(tasks, ticks, offset, i + 1, j + 1) == 0
  {
    hide CalculateNextIntervalExecution, LocalDay;
    assert Fires(tasks[i], offset, ticks[i]);
    hide Fires;
    if Firings(tasks, ticks, offset, i + 1, j + 1) > 0 {
      var k := FirstFiring(tasks, ticks, offset, i + 1, j + 1);
      NextFiring(tasks, ticks, offset, i, k);
      TickDays(tasks, ticks, offset, k, j);
    }
  }

  /** The saves are needed, and exactly the save of the firing itself: on the day that was recorded,
      the next tick that can create a task fires again if and only if that save failed. */
  lemma RefiresIffUnsaved(tasks: seq<ScheduledTask>, ticks: seq<Tick>, offset: int, i: nat)
    requires Run(tasks, ticks, offset) && i + 1 < |ticks|
    requires Fires(tasks[i], offset, ticks[i])
    requires ticks[i + 1].listed && ticks[i + 1].createOk
    requires LocalDay(ticks[i + 1].checkedAt, offset) == LocalDay(ticks[i].recordedAt, offset)
    ensures Fires(tasks[i + 1], offset, ticks[i + 1]) <==> !ticks[i].saveOk
  {
    hide CalculateNextIntervalExecution, LocalDay;
    SchedulingStays(tasks, ticks, offset, i);
    assert tasks[i + 1] == AfterTick(tasks[i], offset, ticks[i]);
    if ticks[i].saveOk {
      if Fires(tasks[i + 1], offset, ticks[i + 1]) {
        assert Firings(tasks, ticks, offset, i + 1, i + 1) == 0;
        NextFiring(tasks, ticks, offset, i, i + 1);
      }
    } else {
      SchedulingStays(tasks, ticks, offset, i + 1);
    }
  }
}
